/** Lowering and the agent together compute what the typed program means, for every kernel and whatever
    an earlier program left behind, exactly when the fixup table has room. */
module Faithful {
  import opened Words
  import opened Typed
  import opened Scratch
  import opened Lowering
  import opened Agent

  /** How many of the first `n` arguments of a call, and of all arguments of the first `n` calls, refer to
      what another call produced. */
  function ProducedIn(c: Call, n: nat): nat
    requires n <= Arity(c)
  {
    if n == 0 then 0 else ProducedIn(c, n - 1) + if IsProduced(c, n - 1) then 1 else 0
  }

  function ProducedArgs(p: Prog, n: nat): nat
    requires n <= |p|
  {
    if n == 0 then 0 else ProducedArgs(p, n - 1) + ProducedIn(p[n - 1], Arity(p[n - 1]))
  }

  /** The table has room for them. */
  predicate FitsWire(p: Prog) { ProducedArgs(p, |p|) <= MAX_FIXUPS }

  lemma {:induction false} CallFixCount(p: Prog, base: u32, cap: nat, i: nat, n: nat)
    requires SmallCalls(p) && i < |p| && n <= Arity(p[i])
    ensures |CallFix(p, base, cap, i, n)| == ProducedIn(p[i], n)
    decreases n
  {
    hide FinalSrc;
    if n > 0 {
      CallFixCount(p, base, cap, i, n - 1);
    }
  }

  /** The lowering makes one fixup for each. */
  lemma {:induction false} FixupCounted(p: Prog, base: u32, cap: nat, n: nat)
    requires SmallCalls(p) && n <= |p|
    ensures |AllFix(p, base, cap, n)| == ProducedArgs(p, n)
    decreases n
  {
    hide CallFix;
    if n > 0 {
      FixupCounted(p, base, cap, n - 1);
      CallFixCount(p, base, cap, n - 1, Arity(p[n - 1]));
    }
  }

  lemma LoweredIs(p: Prog, base: u32, cap: nat)
    requires Lowerable(p, cap)
    ensures var l := Lower(p, base, cap);
      && SixArgs(l) && |l.calls| == |p| && l.fixups == AllFix(p, base, cap, |p|)
      && forall i | 0 <= i < |p| :: l.calls[i].nr == p[i].desc.nr && forall j | 0 <= j < MAX_ARGS ::
           l.calls[i].args[j] == if j < Arity(p[i]) then Plain(p, base, cap, i, j) else 0
  {
    hide LowerCalls, AllFix, Plain, OutOk;
    CallsOk(p, base, cap, |p|);
  }

  /** Each fixup is for a produced argument. */
  ghost predicate ForProduced(p: Prog, f: Fixup) { f.dstCall < |p| && f.dstArg < Arity(p[f.dstCall]) && IsProduced(p[f.dstCall], f.dstArg) }

  lemma {:induction false} CallFixFor(p: Prog, base: u32, cap: nat, i: nat, n: nat)
    requires SmallCalls(p) && i < |p| && n <= Arity(p[i])
    ensures forall f | f in CallFix(p, base, cap, i, n) :: ForProduced(p, f) && f.dstCall == i && f.dstArg < n
    decreases n
  {
    hide FinalSrc;
    if n > 0 {
      CallFixFor(p, base, cap, i, n - 1);
    }
  }

  lemma {:induction false} AllFixFor(p: Prog, base: u32, cap: nat, n: nat)
    requires SmallCalls(p) && n <= |p|
    ensures forall f | f in AllFix(p, base, cap, n) :: ForProduced(p, f) && f.dstCall < n
    decreases n
  {
    hide CallFix, ForProduced;
    if n > 0 {
      AllFixFor(p, base, cap, n - 1);
      CallFixFor(p, base, cap, n - 1, Arity(p[n - 1]));
    }
  }

  lemma Targets(p: Prog, base: u32, cap: nat)
    requires Lowerable(p, cap)
    ensures forall f | f in AllFix(p, base, cap, |p|) :: f.dstCall < MAX_CALLS && f.dstArg < MAX_ARGS
  {
    hide AllFix;
    AllFixFor(p, base, cap, |p|);
  }

  /** The arguments the agent passes are the ones the program means. */
  lemma ArgsMean<S>(p: Prog, base: u32, cap: nat, k: Kernel<S>, s: S, rets: seq<u32>, results: seq<u32>, i: nat, a: seq<u32>)
    requires Lowerable(p, cap) && i < |p| && |rets| == i && |results| == MAX_CALLS && results[..i] == rets && |a| == MAX_ARGS
    requires forall j | 0 <= j < MAX_ARGS :: a[j] == if j < Arity(p[i]) then Plain(p, base, cap, i, j) else 0
    ensures Apply(k, s, results, i, a, AllFix(p, base, cap, |p|)) == Meanings(p, base, cap, k, s, rets, i)
  {
    hide Place, AllFix, CallFix, Apply, W32;
    ApplyAll(p, base, cap, k, s, results, i, |p|, a);
    ApplyOwn(p, base, cap, k, s, results, i, Arity(p[i]), a);
    var r, m := Apply(k, s, results, i, a, CallFix(p, base, cap, i, Arity(p[i]))), Meanings(p, base, cap, k, s, rets, i);
    forall j | 0 <= j < MAX_ARGS ensures r[j] == m[j] {
      if j < Arity(p[i]) {
        assert m[j] == Meaning(p, base, cap, k, s, rets, i, j);
        if IsProduced(p[i], j) {
          SmallWord(p[i].args[j].ref.call);
          assert results[..i][p[i].args[j].ref.call] == results[p[i].args[j].ref.call];
        }
      }
    }
  }

  lemma SmallWord(c: nat)
    ensures c < TWO32 ==> W32(c) == c
  {
  }

  /** From any call on. Entries of `results` at or past the current call are never read. */
  lemma {:induction false} FaithfulFrom<S>(p: Prog, base: u32, cap: nat, k: Kernel<S>, s: S, rets: seq<u32>, results: seq<u32>)
    requires Lowerable(p, cap) && FitsWire(p)
    requires |rets| <= |p| && |results| == MAX_CALLS && results[..|rets|] == rets
    ensures SixArgs(Lower(p, base, cap))
    ensures AgentFrom(Wire(Lower(p, base, cap)), k, s, results, |rets|) == Direct(p, base, cap, k, s, rets)
    decreases |p| - |rets|
  {
    hide Lower, Wire, AllFix, Patched, Apply, ArgWords, Meanings, ProducedArgs;
    LoweredIs(p, base, cap);
    FixupCounted(p, base, cap, |p|);
    var l, i := Lower(p, base, cap), |rets|;
    WireCounts(l);
    if i < |p| {
      WireCall(l, i);
      var a := l.calls[i].args;
      Targets(p, base, cap);
      PatchedIsApply(l, k, s, results, i, |l.fixups|, a);
      assert l.fixups[..|l.fixups|] == l.fixups;
      ArgsMean(p, base, cap, k, s, rets, results, i, a);
      var (s1, ret) := k.call(s, p[i].desc.nr, Meanings(p, base, cap, k, s, rets, i));
      assert results[i := ret][..i + 1] == rets + [ret];
      FaithfulFrom(p, base, cap, k, s1, rets + [ret], results[i := ret]);
    }
  }

  /** The whole program, from whatever `results` an earlier one left. */
  lemma AgentFaithful<S>(p: Prog, base: u32, cap: nat, k: Kernel<S>, s: S, stale: seq<u32>)
    requires Lowerable(p, cap) && FitsWire(p) && |stale| == MAX_CALLS
    ensures SixArgs(Lower(p, base, cap))
    ensures AgentFrom(Wire(Lower(p, base, cap)), k, s, stale, 0) == Direct(p, base, cap, k, s, [])
  {
    assert stale[..0] == [];
    FaithfulFrom(p, base, cap, k, s, [], stale);
  }

  // ----- without room, an argument is lost -----

  /** A kernel that answers 1 to everything. */
  function Ones(): Kernel<bool> { Kernel((s, nr, args) => (s, 1), (s, off) => 1) }

  predicate Sooner(f: Fixup, g: Fixup) { f.dstCall < g.dstCall || (f.dstCall == g.dstCall && f.dstArg < g.dstArg) }

  ghost predicate Sorted(fs: seq<Fixup>) { forall x, y | 0 <= x < y < |fs| :: Sooner(fs[x], fs[y]) }

  lemma {:induction false} CallFixSorted(p: Prog, base: u32, cap: nat, i: nat, n: nat)
    requires SmallCalls(p) && i < |p| && n <= Arity(p[i])
    ensures Sorted(CallFix(p, base, cap, i, n))
    decreases n
  {
    hide FinalSrc;
    if n > 0 {
      CallFixSorted(p, base, cap, i, n - 1);
      CallFixFor(p, base, cap, i, n - 1);
      var fs := CallFix(p, base, cap, i, n - 1);
      forall x | 0 <= x < |fs| ensures fs[x].dstCall == i && fs[x].dstArg < n - 1 {
        assert fs[x] in fs;
      }
    }
  }

  lemma {:induction false} AllFixSorted(p: Prog, base: u32, cap: nat, n: nat)
    requires SmallCalls(p) && n <= |p|
    ensures Sorted(AllFix(p, base, cap, n))
    decreases n
  {
    hide CallFix, ForProduced;
    if n > 0 {
      AllFixSorted(p, base, cap, n - 1);
      CallFixSorted(p, base, cap, n - 1, Arity(p[n - 1]));
      AllFixFor(p, base, cap, n - 1);
      CallFixFor(p, base, cap, n - 1, Arity(p[n - 1]));
      var fs, gs := AllFix(p, base, cap, n - 1), CallFix(p, base, cap, n - 1, Arity(p[n - 1]));
      forall x | 0 <= x < |fs| ensures fs[x].dstCall < n - 1 {
        assert fs[x] in fs;
      }
      forall y | 0 <= y < |gs| ensures gs[y].dstCall == n - 1 {
        assert gs[y] in gs;
      }
    }
  }

  lemma {:induction false} ApplyMisses<S>(k: Kernel<S>, s: S, results: seq<u32>, i: nat, j: nat, a: seq<u32>, fs: seq<Fixup>)
    requires j < |a| && forall f | f in fs :: !(f.dstCall == i && f.dstArg == j)
    ensures Apply(k, s, results, i, a, fs)[j] == a[j]
    decreases |fs|
  {
    hide Value;
    if fs != [] {
      assert fs[|fs| - 1] in fs;
      ApplyMisses(k, s, results, i, j, a, fs[..|fs| - 1]);
    }
  }

  /** The agent's event for call `m`, whatever happened before it. */
  lemma {:induction false} AgentEvent(wire: seq<u32>, results: seq<u32>, i: nat, m: nat) returns (r: seq<u32>)
    requires |results| == MAX_CALLS && i <= m < CallCount(wire)
    ensures var ev := AgentFrom(wire, Ones(), true, results, i).1;
      |ev| == CallCount(wire) - i && ev[m - i].args == Patched(wire, Ones(), true, r, m, FixupCount(wire), ArgWords(wire, m))
    decreases MAX_CALLS - i
  {
    hide Patched, ArgWords;
    if i == m {
      r := results;
      AgentLength(wire, results, i);
    } else {
      r := AgentEvent(wire, results[i := 1], i + 1, m);
    }
  }

  lemma {:induction false} AgentLength(wire: seq<u32>, results: seq<u32>, i: nat)
    requires |results| == MAX_CALLS && i <= CallCount(wire)
    ensures |AgentFrom(wire, Ones(), true, results, i).1| == CallCount(wire) - i
    decreases MAX_CALLS - i
  {
    hide Patched, ArgWords;
    if i < CallCount(wire) {
      AgentLength(wire, results[i := 1], i + 1);
    }
  }

  lemma {:induction false} DirectEvent(p: Prog, base: u32, cap: nat, rets: seq<u32>, m: nat) returns (r: seq<u32>)
    requires SmallCalls(p) && |rets| <= m < |p| && forall x | 0 <= x < |rets| :: rets[x] == 1
    ensures |r| == m && forall x | 0 <= x < m :: r[x] == 1
    ensures var ev := Direct(p, base, cap, Ones(), true, rets).1;
      m - |rets| < |ev| && ev[m - |rets|].args == Meanings(p, base, cap, Ones(), true, r, m)
    decreases |p| - |rets|
  {
    hide Meanings;
    if |rets| == m {
      r := rets;
    } else {
      r := DirectEvent(p, base, cap, rets + [1], m);
    }
  }

  /** With more fixups than the table holds, there is a kernel for which the agent passes 0 where the
      program means a produced 1. */
  lemma FixupLost(p: Prog, base: u32, cap: nat, stale: seq<u32>)
    requires Lowerable(p, cap) && !FitsWire(p) && |stale| == MAX_CALLS
    ensures SixArgs(Lower(p, base, cap))
    ensures AgentFrom(Wire(Lower(p, base, cap)), Ones(), true, stale, 0) != Direct(p, base, cap, Ones(), true, [])
  {
    hide Lower, Wire, AllFix, Patched, Apply, ArgWords, Meanings, Direct, AgentFrom, ProducedArgs;
    LoweredIs(p, base, cap);
    FixupCounted(p, base, cap, |p|);
    var l, fs := Lower(p, base, cap), AllFix(p, base, cap, |p|);
    var f := fs[MAX_FIXUPS];
    AllFixFor(p, base, cap, |p|);
    assert f in fs;
    var i, j := f.dstCall, f.dstArg;
    WireCounts(l);
    WireCall(l, i);
    var r := AgentEvent(Wire(l), stale, 0, i);
    Targets(p, base, cap);
    PatchedIsApply(l, Ones(), true, r, i, MAX_FIXUPS, l.calls[i].args);
    AllFixSorted(p, base, cap, |p|);
    forall g | g in fs[..MAX_FIXUPS] ensures !(g.dstCall == i && g.dstArg == j) {
      var x :| 0 <= x < MAX_FIXUPS && fs[x] == g;
      assert Sooner(fs[x], fs[MAX_FIXUPS]);
    }
    ApplyMisses(Ones(), true, r, i, j, l.calls[i].args, fs[..MAX_FIXUPS]);
    var rets := DirectEvent(p, base, cap, [], i);
    MeansOne(p, base, cap, rets, i, j);
  }

  lemma MeansOne(p: Prog, base: u32, cap: nat, rets: seq<u32>, i: nat, j: nat)
    requires Lowerable(p, cap) && i < |p| && j < Arity(p[i]) && IsProduced(p[i], j)
    requires |rets| == i && forall x | 0 <= x < i :: rets[x] == 1
    ensures Meanings(p, base, cap, Ones(), true, rets, i)[j] == 1 && Plain(p, base, cap, i, j) == 0
  {
    hide Place;
  }

  /** A well-formed program within every other limit that has too many: one producer and seven calls that use
      it six times each. */
  function Crowd(): (p: Prog)
    ensures |p| == MAX_CALLS
    ensures p[0] == Call(Desc(0, [], Ret(0)), [])
    ensures forall i | 1 <= i < MAX_CALLS :: p[i] == Consumer()
  {
    seq(MAX_CALLS, i requires 0 <= i < MAX_CALLS => if i == 0 then Call(Desc(0, [], Ret(0)), []) else Consumer())
  }

  function Consumer(): Call
  {
    Call(Desc(1, seq(MAX_ARGS, (j: nat) => Res(0)), NoRes), seq(MAX_ARGS, (j: nat) => ResV(Produced(0, 0))))
  }

  lemma {:induction false} ConsumerCount(n: nat)
    requires n <= MAX_ARGS
    ensures Arity(Consumer()) == MAX_ARGS && ProducedIn(Consumer(), n) == n
    decreases n
  {
    if n > 0 {
      ConsumerCount(n - 1);
    }
  }

  lemma {:induction false} CrowdCount(n: nat)
    requires 1 <= n <= MAX_CALLS
    ensures ProducedArgs(Crowd(), n) == MAX_ARGS * (n - 1)
    decreases n
  {
    hide Consumer, ProducedIn;
    if n > 1 {
      CrowdCount(n - 1);
      ConsumerCount(MAX_ARGS);
    } else {
      ProducerCount();
    }
  }

  lemma ProducerCount()
    ensures ProducedArgs(Crowd(), 1) == 0
  {
    assert ProducedArgs(Crowd(), 0) == 0;
  }

  lemma CrowdOverflows()
    ensures WellFormed([], Crowd()) && Lowerable(Crowd(), 0x8000) && !FitsWire(Crowd())
  {
    CrowdCount(MAX_CALLS);
    forall i | 0 <= i < MAX_CALLS ensures CallOk([], Crowd(), i, Crowd()[i]) {
    }
  }
}
