/** The guest agent (boot/agent.c) and the meaning of a typed program, for an arbitrary kernel. */
module Agent {
  import opened Words
  import opened Typed
  import opened Scratch
  import opened Lowering

  /** A system call may do anything to the state, the scratch region included; `word` reads a scratch word. */
  datatype Kernel<!S> = Kernel(call: (S, u32, seq<u32>) -> (S, u32), word: (S, u32) -> u32)

  datatype Event = Event(nr: u32, args: seq<u32>, ret: u32)

  // ----- what the agent does with the wire words -----

  function WireAt(wire: seq<u32>, k: nat): u32 { if k < |wire| then wire[k] else 0 }

  /** Record `f` of the fixup table, applied to the arguments of call `i`. */
  function PatchOne<S>(wire: seq<u32>, k: Kernel<S>, s: S, results: seq<u32>, i: nat, f: nat, a: seq<u32>): (r: seq<u32>)
    ensures |r| == |a|
  {
    var fr := FIXUP_BASE + 1 + f * FIXUP_WORDS;
    if WireAt(wire, fr) != i then a
    else
      var src := WireAt(wire, fr + 3);
      var v := if WireAt(wire, fr + 2) == 0 then (if src < |results| then results[src] else 0) else k.word(s, src);
      if WireAt(wire, fr + 1) < |a| then a[WireAt(wire, fr + 1) := v] else a
  }

  /** The first `n` records. */
  function Patched<S>(wire: seq<u32>, k: Kernel<S>, s: S, results: seq<u32>, i: nat, n: nat, a: seq<u32>): (r: seq<u32>)
    ensures |r| == |a|
    decreases n
  {
    if n == 0 then a else PatchOne(wire, k, s, results, i, n - 1, Patched(wire, k, s, results, i, n - 1, a))
  }

  function ArgWords(wire: seq<u32>, i: nat): (a: seq<u32>)
    ensures |a| == MAX_ARGS
  {
    seq<u32>(MAX_ARGS, j requires 0 <= j < MAX_ARGS => WireAt(wire, 1 + i * CALL_WORDS + 1 + j))
  }

  function CallCount(wire: seq<u32>): nat { AtMost(WireAt(wire, 0), MAX_CALLS) }

  function FixupCount(wire: seq<u32>): nat { AtMost(WireAt(wire, FIXUP_BASE), MAX_FIXUPS) }

  /** From call `i` on. */
  function AgentFrom<S>(wire: seq<u32>, k: Kernel<S>, s: S, results: seq<u32>, i: nat): (r: (S, seq<Event>))
    requires |results| == MAX_CALLS
    decreases MAX_CALLS - i
  {
    if i >= CallCount(wire) then (s, [])
    else
      var a := Patched(wire, k, s, results, i, FixupCount(wire), ArgWords(wire, i));
      var nr := WireAt(wire, 1 + i * CALL_WORDS);
      var (s1, ret) := k.call(s, nr, a);
      var (s2, rest) := AgentFrom(wire, k, s1, results[i := ret], i + 1);
      (s2, [Event(nr, a, ret)] + rest)
  }

  /** The agent's loop over one program: `results` keeps whatever an earlier program left in it. */
  method RunAgent<S>(wire: seq<u32>, k: Kernel<S>, s0: S, results: array<u32>) returns (s: S, trace: seq<Event>)
    requires results.Length == MAX_CALLS
    modifies results
    ensures (s, trace) == AgentFrom(wire, k, s0, old(results[..]), 0)
  {
    hide PatchOne;
    s, trace := s0, [];
    var n, nfix := CallCount(wire), FixupCount(wire);
    assert [] + AgentFrom(wire, k, s0, results[..], 0).1 == AgentFrom(wire, k, s0, results[..], 0).1;
    for i := 0 to n
      invariant AgentFrom(wire, k, s0, old(results[..]), 0) ==
        (var (t, rest) := AgentFrom(wire, k, s, results[..], i); (t, trace + rest))
    {
      var a := ArgWords(wire, i);
      for f := 0 to nfix
        invariant a == Patched(wire, k, s, results[..], i, f, ArgWords(wire, i))
      {
        a := PatchOne(wire, k, s, results[..], i, f, a);
      }
      var nr := WireAt(wire, 1 + i * CALL_WORDS);
      var (s1, ret) := k.call(s, nr, a);
      ghost var before := results[..];
      results[i] := ret;
      assert results[..] == before[i := ret];
      ghost var (s2, rest) := AgentFrom(wire, k, s1, results[..], i + 1);
      Regroup(trace, [Event(nr, a, ret)], rest);
      trace := trace + [Event(nr, a, ret)];
      s := s1;
    }
    assert trace + [] == trace;
  }

  lemma Regroup(a: seq<Event>, b: seq<Event>, c: seq<Event>)
    ensures a + (b + c) == a + b + c
  {
  }

  // ----- what a typed program means -----

  /** The state of lowering just before argument `j` of call `i`, and the offset its pointee gets. */
  function Before(p: Prog, base: u32, cap: nat, i: nat, j: nat): (st: State)
    requires SmallCalls(p) && i < |p| && j <= Arity(p[i])
    ensures |st.out| == |p|
  {
    LowerArgs(p, base, i, LowerCalls(p, base, cap, i).0, j).0
  }

  function Place(p: Prog, base: u32, cap: nat, i: nat, j: nat): nat
    requires SmallCalls(p) && i < |p| && j < Arity(p[i]) && IsPointer(p[i], j)
  {
    Serialize(Before(p, base, cap, i, j).w, base, p[i].desc.args[j].inner, p[i].args[j].pointee).1
  }

  predicate IsPointer(c: Call, j: nat)
    requires j < Arity(c)
  {
    c.args[j].PtrV? && c.desc.args[j].PtrT?
  }

  predicate IsProduced(c: Call, j: nat)
    requires j < Arity(c)
  {
    c.desc.args[j].Res? && c.args[j].ResV? && c.args[j].ref.Produced?
  }

  /** The call's out-array exists: the argument that should point to it does. */
  predicate HasArray(c: Call)
  {
    c.desc.produces.OutArray? && c.desc.produces.arg < Arity(c) && IsPointer(c, c.desc.produces.arg)
  }

  /** The value of argument `j` of call `i`, from what earlier calls returned and wrote. */
  function Meaning<S>(p: Prog, base: u32, cap: nat, k: Kernel<S>, s: S, rets: seq<u32>, i: nat, j: nat): u32
    requires SmallCalls(p) && i < |p| && j < Arity(p[i])
  {
    var v := p[i].args[j];
    if IsProduced(p[i], j) then
      var c := v.ref.call;
      if c < |p| && HasArray(p[c]) then k.word(s, W32(Place(p, base, cap, c, p[c].desc.produces.arg) + 4 * v.ref.slot))
      else if c < |rets| then rets[c] else 0
    else if IsPointer(p[i], j) then W32(base + Place(p, base, cap, i, j))
    else match v
         case ResV(ref) => if p[i].desc.args[j].Res? then W32(ref.lit) else 0
         case Imm(n) => W32(n)
         case _ => 0
  }

  function Meanings<S>(p: Prog, base: u32, cap: nat, k: Kernel<S>, s: S, rets: seq<u32>, i: nat): (a: seq<u32>)
    requires SmallCalls(p) && i < |p|
    ensures |a| == MAX_ARGS
  {
    Pad(seq(Arity(p[i]), j requires 0 <= j < Arity(p[i]) => Meaning(p, base, cap, k, s, rets, i, j)))
  }

  /** Direct evaluation, with a table of the returns of this program's own earlier calls. */
  function Direct<S>(p: Prog, base: u32, cap: nat, k: Kernel<S>, s: S, rets: seq<u32>): (r: (S, seq<Event>))
    requires SmallCalls(p) && |rets| <= |p|
    decreases |p| - |rets|
  {
    var i := |rets|;
    if i == |p| then (s, [])
    else
      var a := Meanings(p, base, cap, k, s, rets, i);
      var (s1, ret) := k.call(s, p[i].desc.nr, a);
      var (s2, rest) := Direct(p, base, cap, k, s1, rets + [ret]);
      (s2, [Event(p[i].desc.nr, a, ret)] + rest)
  }

  // ----- the fixup table, in closed form -----

  /** A program the wire form has room for, whose references are backward and whose consumed out-arrays
      exist. */
  predicate Lowerable(p: Prog, cap: nat)
  {
    && |p| <= MAX_CALLS && SmallCalls(p) && cap <= 0x4000_0000
    && forall i, j | 0 <= i < |p| && 0 <= j < Arity(p[i]) && IsProduced(p[i], j) ::
         p[i].args[j].ref.call < i && p[i].args[j].ref.slot < 256 &&
         (p[p[i].args[j].ref.call].desc.produces.OutArray? ==> HasArray(p[p[i].args[j].ref.call]))
  }

  function FinalSrc(p: Prog, base: u32, cap: nat, c: nat, slot: nat): Src
    requires SmallCalls(p)
  {
    if c < |p| && HasArray(p[c]) then MemAt(Place(p, base, cap, c, p[c].desc.produces.arg) + 4 * slot) else Reg(c)
  }

  /** The fixups of the first `n` arguments of call `i`, and of the first `n` calls. */
  function CallFix(p: Prog, base: u32, cap: nat, i: nat, n: nat): seq<Fixup>
    requires SmallCalls(p) && i < |p| && n <= Arity(p[i])
    decreases n
  {
    if n == 0 then []
    else
      CallFix(p, base, cap, i, n - 1) +
      if IsProduced(p[i], n - 1) then
        var ref := p[i].args[n - 1].ref;
        [Fixup(i, n - 1, FinalSrc(p, base, cap, ref.call, ref.slot))]
      else []
  }

  function AllFix(p: Prog, base: u32, cap: nat, n: nat): seq<Fixup>
    requires SmallCalls(p) && n <= |p|
    decreases n
  {
    if n == 0 then [] else AllFix(p, base, cap, n - 1) + CallFix(p, base, cap, n - 1, Arity(p[n - 1]))
  }

  /** What is known of the out-table once calls below `i`, and arguments below `j` of call `i`, are done. */
  ghost predicate OutOk(p: Prog, base: u32, cap: nat, out: seq<Option<nat>>, i: nat, j: nat)
    requires SmallCalls(p) && i <= |p| && |out| == |p|
  {
    && (forall c | 0 <= c < i :: out[c] == if HasArray(p[c]) then Some(Place(p, base, cap, c, p[c].desc.produces.arg)) else None)
    && (i < |p| ==> out[i] == if HasArray(p[i]) && p[i].desc.produces.arg < j then Some(Place(p, base, cap, i, p[i].desc.produces.arg)) else None)
    && forall c | i < c < |p| :: out[c].None?
  }

  /** What an argument means, modulo 2^32: a constant or seed its value, a pointer the address of its bytes, a
      returned resource what the earlier call returned, a resource from an array the word in its slot. */
  lemma MeaningMeans<S>(p: Prog, base: u32, cap: nat, k: Kernel<S>, s: S, rets: seq<u32>, i: nat, j: nat)
    requires SmallCalls(p) && i < |p| && j < Arity(p[i])
    ensures var v, m := p[i].args[j], Meaning(p, base, cap, k, s, rets, i, j);
      && (v.Imm? ==> (m - v.v) % TWO32 == 0)
      && (v.ResV? && v.ref.Seed? && p[i].desc.args[j].Res? ==> (m - v.ref.lit) % TWO32 == 0)
      && (IsPointer(p[i], j) ==> (m - base - Place(p, base, cap, i, j)) % TWO32 == 0)
      && (IsProduced(p[i], j) && v.ref.call < |p| && v.ref.call < |rets| && p[v.ref.call].desc.produces.Ret? ==> m == rets[v.ref.call])
      && (IsProduced(p[i], j) && v.ref.call < |p| && HasArray(p[v.ref.call]) ==>
            m == k.word(s, (Place(p, base, cap, v.ref.call, p[v.ref.call].desc.produces.arg) + 4 * v.ref.slot) % TWO32))
  {
    hide Place;
  }

  /** Calls happen in order, each with its own number, its arguments' meanings and zeros behind them. */
  lemma {:induction false} DirectOrder<S>(p: Prog, base: u32, cap: nat, k: Kernel<S>, s: S, rets: seq<u32>)
    requires SmallCalls(p) && |rets| <= |p|
    ensures var es := Direct(p, base, cap, k, s, rets).1;
      && |es| == |p| - |rets|
      && forall x | 0 <= x < |es| :: es[x].nr == p[|rets| + x].desc.nr && |es[x].args| == 6 &&
                                     forall j | Arity(p[|rets| + x]) <= j < 6 :: es[x].args[j] == 0
    decreases |p| - |rets|
  {
    hide Meaning;
    if |rets| < |p| {
      var a := Meanings(p, base, cap, k, s, rets, |rets|);
      var (s1, ret) := k.call(s, p[|rets|].desc.nr, a);
      DirectOrder(p, base, cap, k, s1, rets + [ret]);
    }
  }

  /** Argument `j` as it leaves the lowering: a placeholder where a fixup will come. */
  function Plain(p: Prog, base: u32, cap: nat, i: nat, j: nat): u32
    requires SmallCalls(p) && i < |p| && j < Arity(p[i])
  {
    var v := p[i].args[j];
    if IsProduced(p[i], j) then 0
    else if IsPointer(p[i], j) then W32(base + Place(p, base, cap, i, j))
    else match v
         case ResV(ref) => if p[i].desc.args[j].Res? then W32(ref.lit) else 0
         case Imm(n) => W32(n)
         case _ => 0
  }

  lemma ArgStep(p: Prog, base: u32, cap: nat, i: nat, j: nat)
    requires Lowerable(p, cap) && i < |p| && j < Arity(p[i])
    requires var st := Before(p, base, cap, i, j);
      OutOk(p, base, cap, st.out, i, j) && st.fixups == AllFix(p, base, cap, i) + CallFix(p, base, cap, i, j)
    ensures var (st', a) := LowerArg(p, base, i, j, Before(p, base, cap, i, j));
      && OutOk(p, base, cap, st'.out, i, j + 1) && a == Plain(p, base, cap, i, j)
      && st'.fixups == AllFix(p, base, cap, i) + CallFix(p, base, cap, i, j + 1)
  {
    hide Place, Before, Serialize, W32, AllFix, CallFix;
    CallFixStep(p, base, cap, i, j);
    var st := Before(p, base, cap, i, j);
    if IsPointer(p[i], j) {
      PlaceIs(p, base, cap, i, j);
    }
    if IsProduced(p[i], j) {
      var ref := p[i].args[j].ref;
      assert SrcOf(p, st.out, ref.call, ref.slot) == FinalSrc(p, base, cap, ref.call, ref.slot);
      Assoc(AllFix(p, base, cap, i), CallFix(p, base, cap, i, j), [Fixup(i, j, SrcOf(p, st.out, ref.call, ref.slot))]);
    }
  }

  lemma PlaceIs(p: Prog, base: u32, cap: nat, i: nat, j: nat)
    requires SmallCalls(p) && i < |p| && j < Arity(p[i]) && IsPointer(p[i], j)
    ensures Place(p, base, cap, i, j) ==
      Serialize(Before(p, base, cap, i, j).w, base, p[i].desc.args[j].inner, p[i].args[j].pointee).1
  {
    hide Serialize;
  }

  lemma Assoc<T>(a: seq<T>, b: seq<T>, c: seq<T>)
    ensures a + (b + c) == a + b + c
  {
  }

  lemma {:induction false} ArgsOk(p: Prog, base: u32, cap: nat, i: nat, n: nat)
    requires Lowerable(p, cap) && i < |p| && n <= Arity(p[i])
    requires var st := LowerCalls(p, base, cap, i).0;
      OutOk(p, base, cap, st.out, i, 0) && st.fixups == AllFix(p, base, cap, i)
    ensures var (st, args) := LowerArgs(p, base, i, LowerCalls(p, base, cap, i).0, n);
      && OutOk(p, base, cap, st.out, i, n) && st.fixups == AllFix(p, base, cap, i) + CallFix(p, base, cap, i, n)
      && forall j | 0 <= j < n :: args[j] == Plain(p, base, cap, i, j)
    decreases n
  {
    hide LowerArg, OutOk, Plain, AllFix;
    if n > 0 {
      ArgsOk(p, base, cap, i, n - 1);
      ArgStep(p, base, cap, i, n - 1);
    } else {
      assert AllFix(p, base, cap, i) + [] == AllFix(p, base, cap, i);
    }
  }

  /** The out-array table after the last argument of a call is the one before the first of the next. */
  lemma OutNext(p: Prog, base: u32, cap: nat, out: seq<Option<nat>>, i: nat)
    requires SmallCalls(p) && i < |p| && |out| == |p| && OutOk(p, base, cap, out, i, Arity(p[i]))
    ensures OutOk(p, base, cap, out, i + 1, 0)
  {
    hide Place;
  }

  /** After `n` calls: the table of fixups is in closed form, and every call has its plain arguments. */
  lemma {:induction false} CallsOk(p: Prog, base: u32, cap: nat, n: nat)
    requires Lowerable(p, cap) && n <= |p|
    ensures var (st, calls) := LowerCalls(p, base, cap, n);
      && OutOk(p, base, cap, st.out, n, 0) && st.fixups == AllFix(p, base, cap, n)
      && forall i | 0 <= i < n :: calls[i].nr == p[i].desc.nr && |calls[i].args| == MAX_ARGS &&
           forall j | 0 <= j < MAX_ARGS :: calls[i].args[j] == if j < Arity(p[i]) then Plain(p, base, cap, i, j) else 0
    decreases n
  {
    hide LowerArgs, Plain, CallFix, Place;
    if n > 0 {
      hide OutOk;
      CallsOk(p, base, cap, n - 1);
      ArgsOk(p, base, cap, n - 1, Arity(p[n - 1]));
      OutNext(p, base, cap, LowerCalls(p, base, cap, n).0.out, n - 1);
    }
  }

  // ----- applying fixups -----

  function Value<S>(k: Kernel<S>, s: S, results: seq<u32>, src: Src): u32
  {
    match src
    case Reg(c) => if W32(c) < |results| then results[W32(c)] else 0
    case MemAt(off) => k.word(s, W32(off))
  }

  /** The table as a list, applied to the arguments of call `i`. */
  function Apply<S>(k: Kernel<S>, s: S, results: seq<u32>, i: nat, a: seq<u32>, fs: seq<Fixup>): (r: seq<u32>)
    ensures |r| == |a|
    decreases |fs|
  {
    if fs == [] then a
    else
      var b, f := Apply(k, s, results, i, a, fs[..|fs| - 1]), fs[|fs| - 1];
      if f.dstCall == i && f.dstArg < |a| then b[f.dstArg := Value(k, s, results, f.src)] else b
  }

  lemma {:induction false} ApplyAppend<S>(k: Kernel<S>, s: S, results: seq<u32>, i: nat, a: seq<u32>, fs: seq<Fixup>, gs: seq<Fixup>)
    ensures Apply(k, s, results, i, a, fs + gs) == Apply(k, s, results, i, Apply(k, s, results, i, a, fs), gs)
    decreases |gs|
  {
    hide Value;
    if gs == [] {
      assert fs + gs == fs;
    } else {
      assert (fs + gs)[..|fs + gs| - 1] == fs + gs[..|gs| - 1];
      ApplyAppend(k, s, results, i, a, fs, gs[..|gs| - 1]);
    }
  }

  lemma {:induction false} ApplyOthers<S>(k: Kernel<S>, s: S, results: seq<u32>, i: nat, a: seq<u32>, fs: seq<Fixup>)
    requires forall f | f in fs :: f.dstCall != i
    ensures Apply(k, s, results, i, a, fs) == a
    decreases |fs|
  {
    if fs != [] {
      assert fs[|fs| - 1] in fs;
      ApplyOthers(k, s, results, i, a, fs[..|fs| - 1]);
    }
  }

  lemma {:induction false} CallFixTargets(p: Prog, base: u32, cap: nat, i: nat, n: nat)
    requires SmallCalls(p) && i < |p| && n <= Arity(p[i])
    ensures forall f | f in CallFix(p, base, cap, i, n) :: f.dstCall == i && f.dstArg < n
    decreases n
  {
    hide FinalSrc;
    if n > 0 {
      CallFixTargets(p, base, cap, i, n - 1);
    }
  }

  /** Over the whole table only a call's own fixups matter to it. */
  lemma {:induction false} ApplyAll<S>(p: Prog, base: u32, cap: nat, k: Kernel<S>, s: S, results: seq<u32>, i: nat, n: nat, a: seq<u32>)
    requires SmallCalls(p) && n <= |p| && i < |p|
    ensures Apply(k, s, results, i, a, AllFix(p, base, cap, n)) ==
      if i < n then Apply(k, s, results, i, a, CallFix(p, base, cap, i, Arity(p[i]))) else a
    decreases n
  {
    hide Value, CallFix;
    if n > 0 {
      ApplyAll(p, base, cap, k, s, results, i, n - 1, a);
      var own := CallFix(p, base, cap, n - 1, Arity(p[n - 1]));
      ApplyAppend(k, s, results, i, a, AllFix(p, base, cap, n - 1), own);
      CallFixTargets(p, base, cap, n - 1, Arity(p[n - 1]));
      if i != n - 1 {
        ApplyOthers(k, s, results, i, Apply(k, s, results, i, a, AllFix(p, base, cap, n - 1)), own);
      }
    }
  }

  lemma CallFixStep(p: Prog, base: u32, cap: nat, i: nat, n: nat)
    requires SmallCalls(p) && i < |p| && n < Arity(p[i])
    ensures var fs := CallFix(p, base, cap, i, n);
      CallFix(p, base, cap, i, n + 1) ==
        if IsProduced(p[i], n) then fs + [Fixup(i, n, FinalSrc(p, base, cap, p[i].args[n].ref.call, p[i].args[n].ref.slot))] else fs
  {
    hide FinalSrc;
    var fs := CallFix(p, base, cap, i, n);
    assert fs + [] == fs;
  }

  lemma NoFix(p: Prog, base: u32, cap: nat, i: nat)
    requires SmallCalls(p) && i < |p|
    ensures CallFix(p, base, cap, i, 0) == []
  {
  }

  lemma ApplyNone<S>(k: Kernel<S>, s: S, results: seq<u32>, i: nat, a: seq<u32>)
    ensures Apply(k, s, results, i, a, []) == a
  {
  }

  lemma ApplyLast<S>(k: Kernel<S>, s: S, results: seq<u32>, i: nat, a: seq<u32>, fs: seq<Fixup>, f: Fixup)
    requires f.dstCall == i && f.dstArg < |a|
    ensures Apply(k, s, results, i, a, fs + [f]) == Apply(k, s, results, i, a, fs)[f.dstArg := Value(k, s, results, f.src)]
  {
    hide Value;
    assert (fs + [f])[..|fs|] == fs;
  }

  /** A call's own fixups put each produced value where it belongs and leave the rest. */
  lemma {:induction false} ApplyOwn<S>(p: Prog, base: u32, cap: nat, k: Kernel<S>, s: S, results: seq<u32>, i: nat, n: nat, a: seq<u32>)
    requires SmallCalls(p) && i < |p| && n <= Arity(p[i]) && |a| == MAX_ARGS
    ensures var r := Apply(k, s, results, i, a, CallFix(p, base, cap, i, n));
      forall j | 0 <= j < MAX_ARGS ::
        r[j] == if j < n && IsProduced(p[i], j) then
                  Value(k, s, results, FinalSrc(p, base, cap, p[i].args[j].ref.call, p[i].args[j].ref.slot))
                else a[j]
    decreases n
  {
    hide Value, FinalSrc, CallFix, Apply;
    var fs := CallFix(p, base, cap, i, if n > 0 then n - 1 else 0);
    if n > 0 {
      ApplyOwn(p, base, cap, k, s, results, i, n - 1, a);
      CallFixStep(p, base, cap, i, n - 1);
      if IsProduced(p[i], n - 1) {
        ApplyLast(k, s, results, i, a, fs,
                  Fixup(i, n - 1, FinalSrc(p, base, cap, p[i].args[n - 1].ref.call, p[i].args[n - 1].ref.slot)));
      }
    } else {
      NoFix(p, base, cap, i);
      ApplyNone(k, s, results, i, a);
    }
  }

  // ----- the agent reads the wire as the list -----

  /** The fixups that fit the wire. */
  function Kept(fs: seq<Fixup>): seq<Fixup> { fs[..AtMost(|fs|, MAX_FIXUPS)] }

  lemma {:induction false} PatchedIsApply<S>(l: Lowered, k: Kernel<S>, s: S, results: seq<u32>, i: nat, n: nat, a: seq<u32>)
    requires SixArgs(l) && n <= AtMost(|l.fixups|, MAX_FIXUPS) && i < MAX_CALLS
    requires forall f | f in l.fixups :: f.dstCall < MAX_CALLS && f.dstArg < MAX_ARGS && |a| == MAX_ARGS
    ensures Patched(Wire(l), k, s, results, i, n, a) == Apply(k, s, results, i, a, l.fixups[..n])
    decreases n
  {
    hide Value, FixupWord, WireWord;
    if n > 0 {
      PatchedIsApply(l, k, s, results, i, n - 1, a);
      PatchIsOne(l, k, s, results, i, n - 1, Patched(Wire(l), k, s, results, i, n - 1, a));
      assert l.fixups[..n][..n - 1] == l.fixups[..n - 1];
    }
  }

  lemma PatchIsOne<S>(l: Lowered, k: Kernel<S>, s: S, results: seq<u32>, i: nat, f: nat, a: seq<u32>)
    requires SixArgs(l) && f < AtMost(|l.fixups|, MAX_FIXUPS) && i < MAX_CALLS
    requires l.fixups[f].dstCall < MAX_CALLS && l.fixups[f].dstArg < MAX_ARGS
    ensures var x := l.fixups[f];
      PatchOne(Wire(l), k, s, results, i, f, a) ==
      if x.dstCall == i && x.dstArg < |a| then a[x.dstArg := Value(k, s, results, x.src)] else a
  {
    hide WireWord;
    FixupSlot(l, f, 0);
    FixupSlot(l, f, 1);
    FixupSlot(l, f, 2);
    FixupSlot(l, f, 3);
  }

  lemma WireCall(l: Lowered, i: nat)
    requires SixArgs(l) && i < AtMost(|l.calls|, MAX_CALLS)
    ensures WireAt(Wire(l), 1 + i * CALL_WORDS) == l.calls[i].nr && ArgWords(Wire(l), i) == l.calls[i].args
  {
    hide WireWord;
    CallSlot(l, i, 0);
    forall j | 0 <= j < MAX_ARGS ensures ArgWords(Wire(l), i)[j] == l.calls[i].args[j] {
      CallSlot(l, i, 1 + j);
      assert Wire(l)[1 + i * CALL_WORDS + (1 + j)] == WireWord(l, 1 + i * CALL_WORDS + (1 + j));
    }
  }

  lemma WireCounts(l: Lowered)
    requires SixArgs(l)
    ensures CallCount(Wire(l)) == AtMost(|l.calls|, MAX_CALLS) && FixupCount(Wire(l)) == AtMost(|l.fixups|, MAX_FIXUPS)
  {
    Headers(l);
  }
}
