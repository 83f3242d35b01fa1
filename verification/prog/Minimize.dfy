/** Crash minimization (crates/fs-cli/src/main.rs): greedy removal of calls, one at a time, for as long as
    the same crash signature comes back. A run is a function of the program, since every run starts from
    a reset machine. */
module Minimize {
  import opened Words
  import opened Typed
  import opened Mutation

  datatype Crash = Crash(sig: u32, console: string)

  type Runner = Prog -> Option<Crash>

  predicate Reproduces(run: Runner, p: Prog, target: u32) { run(p).Some? && run(p).value.sig == target }

  predicate Inside(keep: seq<nat>, n: nat) { forall x | 0 <= x < |keep| :: keep[x] < n }

  predicate Hits(run: Runner, p: Prog, target: u32, keep: seq<nat>)
    requires Inside(keep, |p|)
  {
    Reproduces(run, Subset(p, keep), target)
  }

  function All(n: nat): (s: seq<nat>)
    ensures |s| == n && forall i | 0 <= i < n :: s[i] == i
  {
    seq(n, (i: nat) => i)
  }

  function Cut(keep: seq<nat>, pos: nat): (r: seq<nat>)
    requires pos < |keep|
    ensures |r| == |keep| - 1
    ensures forall n :: Inside(keep, n) ==> Inside(r, n)
  {
    keep[..pos] + keep[pos + 1..]
  }

  lemma CutKeeps(keep: seq<nat>, pos: nat, n: nat)
    requires pos < |keep| && Increasing(keep, n)
    ensures Increasing(Cut(keep, pos), n)
  {
  }

  // ----- the candidate program -----

  lemma PositionMore(keep: seq<nat>, x: nat, c: nat)
    requires x < |keep|
    ensures Position(keep[..x + 1], c) == if c == keep[x] then Some(x) else Position(keep[..x], c)
  {
    assert keep[..x + 1][..x] == keep[..x];
  }

  /** The table gives every position among the first `x` kept calls. */
  ghost predicate Tabled(keep: seq<nat>, x: nat, remap: map<nat, nat>)
    requires x <= |keep|
  {
    forall c: nat :: Position(keep[..x], c) == if c in remap then Some(remap[c]) else None
  }

  lemma NoneTabled(keep: seq<nat>)
    ensures Tabled(keep, 0, map[])
  {
  }

  lemma TableMore(keep: seq<nat>, x: nat, remap: map<nat, nat>)
    requires x < |keep| && Tabled(keep, x, remap)
    ensures Tabled(keep, x + 1, remap[keep[x] := x])
  {
    hide Position;
    var more := remap[keep[x] := x];
    forall c: nat ensures Position(keep[..x + 1], c) == if c in more then Some(more[c]) else None {
      PositionMore(keep, x, c);
    }
  }

  /** `subset_prog`: a table of new positions, then every kept call with its references looked up in it.
      Positions are 16-bit. */
  method SubsetProg(p: Prog, keep: seq<nat>) returns (q: Prog)
    requires Inside(keep, |p|)
    ensures |q| == |keep| && (|keep| <= 0x1_0000 ==> q == Subset(p, keep))
  {
    hide Subset, Remap, RemapArg, Position;
    var remap: map<nat, nat> := map[];
    assert Tabled(keep, 0, remap) by { NoneTabled(keep); }
    for x := 0 to |keep|
      invariant Tabled(keep, x, remap)
    {
      TableMore(keep, x, remap);
      remap := remap[keep[x] := x];
    }
    assert keep[..|keep|] == keep;
    q := [];
    for x := 0 to |keep|
      invariant |q| == x
      invariant |keep| <= 0x1_0000 ==> forall y | 0 <= y < x :: q[y] == Remap(p[keep[y]], keep)
    {
      var c := p[keep[x]];
      var args: seq<ArgValue> := [];
      for j := 0 to |c.args|
        invariant |args| == j
        invariant |keep| <= 0x1_0000 ==> forall y | 0 <= y < j :: args[y] == RemapArg(c.args[y], keep)
      {
        var v := c.args[j];
        if v.ResV? && v.ref.Produced? {
          if v.ref.call in remap {
            v := ResV(Produced(remap[v.ref.call] % 0x1_0000, v.ref.slot));
          } else {
            v := ResV(Seed(-100));
          }
        }
        RemapIs(c.args[j], keep);
        args := args + [v];
      }
      RemapWhole(c, keep, args);
      q := q + [Call(c.desc, args)];
    }
    SubsetIs(p, keep, q);
  }

  lemma RemapIs(v: ArgValue, keep: seq<nat>)
    ensures RemapArg(v, keep) ==
      if v.ResV? && v.ref.Produced? then
        (var at := Position(keep, v.ref.call); ResV(if at.Some? then Produced(at.value, v.ref.slot) else Seed(-100)))
      else v
  {
  }

  lemma RemapWhole(c: Call, keep: seq<nat>, args: seq<ArgValue>)
    requires |args| == |c.args|
    ensures (forall j | 0 <= j < |args| :: args[j] == RemapArg(c.args[j], keep)) ==> Call(c.desc, args) == Remap(c, keep)
  {
    hide RemapArg;
    if forall j | 0 <= j < |args| :: args[j] == RemapArg(c.args[j], keep) {
      assert Remap(c, keep).args == args;
    }
  }

  lemma SubsetIs(p: Prog, keep: seq<nat>, q: Prog)
    requires Inside(keep, |p|) && |q| == |keep|
    ensures (forall y | 0 <= y < |q| :: q[y] == Remap(p[keep[y]], keep)) ==> q == Subset(p, keep)
  {
  }

  // ----- the search -----

  /** The first position at or after `pos` whose removal still reproduces. */
  function FirstHit(run: Runner, p: Prog, target: u32, keep: seq<nat>, pos: nat): (r: Option<nat>)
    requires Inside(keep, |p|) && pos <= |keep|
    ensures r.Some? ==> pos <= r.value < |keep| && Hits(run, p, target, Cut(keep, r.value))
    ensures forall i | pos <= i < (if r.Some? then r.value else |keep|) :: !Hits(run, p, target, Cut(keep, i))
    decreases |keep| - pos
  {
    if pos == |keep| then None
    else if Hits(run, p, target, Cut(keep, pos)) then Some(pos)
    else FirstHit(run, p, target, keep, pos + 1)
  }

  /** The calls kept in the end. */
  function Shrink(run: Runner, p: Prog, target: u32, keep: seq<nat>): (r: seq<nat>)
    requires Inside(keep, |p|)
    ensures Inside(r, |p|)
    decreases |keep|
  {
    if |keep| <= 1 then keep
    else
      var hit := FirstHit(run, p, target, keep, 0);
      if hit.None? then keep else Shrink(run, p, target, Cut(keep, hit.value))
  }

  /** How many programs are run on the way. */
  function Runs(run: Runner, p: Prog, target: u32, keep: seq<nat>): nat
    requires Inside(keep, |p|)
    decreases |keep|
  {
    if |keep| <= 1 then 0
    else
      var hit := FirstHit(run, p, target, keep, 0);
      if hit.None? then |keep| else hit.value + 1 + Runs(run, p, target, Cut(keep, hit.value))
  }

  /** `minimize_program`, with the reset, injection and run of one candidate as `run`. */
  method MinimizeProgram(run: Runner, prog: Prog, target: u32)
    returns (q: Prog, console: Option<string>, runs: nat)
    ensures var n := |prog|; var kept := Shrink(run, prog, target, All(n));
      && q == Subset(prog, kept) && runs == Runs(run, prog, target, All(n))
      && (console.Some? ==> run(q) == Some(Crash(target, console.value)))
      && (console.None? <==> kept == All(n))
  {
    hide Subset, Hits;
    var keep := All(|prog|);
    console, runs := None, 0;
    var changed := true;
    ghost var full, left := keep, Runs(run, prog, target, keep);
    while changed && |keep| > 1
      invariant Inside(keep, |prog|) && |keep| <= |prog|
      invariant Shrink(run, prog, target, full) == if changed then Shrink(run, prog, target, keep) else keep
      invariant Runs(run, prog, target, full) == runs + if changed then Runs(run, prog, target, keep) else 0
      invariant console.None? <==> |keep| == |prog|
      invariant console.None? ==> keep == full
      invariant console.Some? ==> run(Subset(prog, keep)) == Some(Crash(target, console.value))
      decreases |keep|, changed
    {
      changed := false;
      ghost var was, before := keep, runs;
      for pos := 0 to |keep|
        invariant keep == was && !changed && runs == before + pos
        invariant FirstHit(run, prog, target, was, 0) == FirstHit(run, prog, target, was, pos)
      {
        var candidate := Cut(keep, pos);
        var crash := run(Subset(prog, candidate));
        runs := runs + 1;
        HitsIs(run, prog, target, candidate);
        if crash.Some? && crash.value.sig == target {
          keep, console, changed := candidate, Some(crash.value.console), true;
          break;
        }
      }
    }
    ShrinkShrinks(run, prog, target, full);
    q := Subset(prog, keep);
  }

  lemma HitsIs(run: Runner, p: Prog, target: u32, keep: seq<nat>)
    requires Inside(keep, |p|)
    ensures Hits(run, p, target, keep) <==> run(Subset(p, keep)).Some? && run(Subset(p, keep)).value.sig == target
  {
  }

  lemma {:induction false} ShrinkShrinks(run: Runner, p: Prog, target: u32, keep: seq<nat>)
    requires Inside(keep, |p|)
    ensures var r := Shrink(run, p, target, keep); |r| <= |keep| && (r == keep || |r| < |keep|)
    decreases |keep|
  {
    if |keep| > 1 {
      var hit := FirstHit(run, p, target, keep, 0);
      if hit.Some? {
        ShrinkShrinks(run, p, target, Cut(keep, hit.value));
      }
    }
  }

  // ----- what it finds -----

  /** The kept calls keep their order, still reproduce, and are one call or cannot lose any. */
  lemma {:induction false} ShrinkMinimal(run: Runner, p: Prog, target: u32, keep: seq<nat>)
    requires Increasing(keep, |p|) && Inside(keep, |p|)
    ensures var r := Shrink(run, p, target, keep);
      && Increasing(r, |p|) && (r == [] <==> keep == [])
      && (Hits(run, p, target, keep) || r != keep ==> Hits(run, p, target, r))
      && (|r| <= 1 || forall pos | 0 <= pos < |r| :: !Hits(run, p, target, Cut(r, pos)))
    decreases |keep|
  {
    hide Hits, Increasing;
    if |keep| > 1 {
      var hit := FirstHit(run, p, target, keep, 0);
      if hit.Some? {
        var next := Cut(keep, hit.value);
        CutKeeps(keep, hit.value, |p|);
        ShrinkMinimal(run, p, target, next);
      }
    }
  }

  lemma {:induction false} RunsBound(run: Runner, p: Prog, target: u32, keep: seq<nat>)
    requires Inside(keep, |p|) && keep != []
    ensures Runs(run, p, target, keep) <= |keep| * (|keep| + 1) / 2 - 1
    decreases |keep|
  {
    hide Hits;
    if |keep| > 1 {
      var hit := FirstHit(run, p, target, keep, 0);
      if hit.Some? {
        RunsBound(run, p, target, Cut(keep, hit.value));
      }
      Triangle(|keep|);
    }
  }

  lemma Triangle(k: nat)
    requires k > 1
    ensures (k - 1) * k / 2 + k == k * (k + 1) / 2 && k <= k * (k + 1) / 2 - 1
  {
    var q := k * k;
    assert (k - 1) * k == q - k;
    assert k * (k + 1) == q + k;
    assert q >= 2 * k by { Twice(k); }
    Halves(q, k);
  }

  lemma Twice(k: nat)
    requires k > 1
    ensures k * k >= 2 * k
  {
    assert k * k == 2 * k + (k - 2) * k;
  }

  lemma Halves(q: nat, k: nat)
    requires q >= 2 * k
    ensures (q - k) / 2 + k == (q + k) / 2
  {
    assert q + k == (q - k) + 2 * k;
  }

  // ----- subsets of subsets -----

  function Through(a: seq<nat>, b: seq<nat>): (r: seq<nat>)
    requires Inside(b, |a|)
    ensures |r| == |b| && forall x | 0 <= x < |b| :: r[x] == a[b[x]]
  {
    seq(|b|, x requires 0 <= x < |b| => a[b[x]])
  }

  lemma PositionIs(keep: seq<nat>, n: nat, x: nat)
    requires Increasing(keep, n) && x < |keep|
    ensures Position(keep, keep[x]) == Some(x)
  {
    hide Position;
    var r := Position(keep, keep[x]);
    assert keep[r.value] == keep[x];
  }

  lemma RemapTwice(v: ArgValue, a: seq<nat>, b: seq<nat>, n: nat)
    requires Increasing(a, n) && Increasing(b, |a|) && Inside(b, |a|)
    ensures RemapArg(RemapArg(v, a), b) == RemapArg(v, Through(a, b))
  {
    hide Position;
    if v.ResV? && v.ref.Produced? {
      var c, t := v.ref.call, Through(a, b);
      ThroughIncreasing(a, b, n);
      if y: nat :| y < |t| && t[y] == c {
        PositionIs(t, n, y);
        PositionIs(a, n, b[y]);
        PositionIs(b, |a|, y);
      } else {
        DroppedTwice(a, b, c);
      }
    }
  }

  lemma DroppedTwice(a: seq<nat>, b: seq<nat>, c: nat)
    requires Inside(b, |a|) && c !in Through(a, b)
    ensures Position(a, c).None? || Position(b, Position(a, c).value).None?
  {
    hide Position;
    forall x | 0 <= x < |b| ensures a[b[x]] != c {
      assert Through(a, b)[x] in Through(a, b);
    }
  }

  lemma ThroughIncreasing(a: seq<nat>, b: seq<nat>, n: nat)
    requires Increasing(a, n) && Increasing(b, |a|) && Inside(b, |a|)
    ensures Increasing(Through(a, b), n)
  {
  }

  lemma SubsetTwice(p: Prog, a: seq<nat>, b: seq<nat>)
    requires Increasing(a, |p|) && Increasing(b, |a|) && Inside(b, |a|)
    ensures Inside(Through(a, b), |p|)
    ensures Subset(Subset(p, a), b) == Subset(p, Through(a, b))
  {
    hide RemapArg;
    var q := Subset(p, a);
    var two, one := Subset(q, b), Subset(p, Through(a, b));
    forall x | 0 <= x < |b| ensures two[x] == one[x] {
      var c := p[a[b[x]]];
      assert two[x].args == one[x].args by {
        forall j | 0 <= j < |c.args| ensures two[x].args[j] == one[x].args[j] {
          RemapTwice(c.args[j], a, b, |p|);
        }
      }
    }
  }

  lemma CutThrough(keep: seq<nat>, pos: nat)
    requires pos < |keep|
    ensures Inside(Cut(All(|keep|), pos), |keep|) && Through(keep, Cut(All(|keep|), pos)) == Cut(keep, pos)
  {
  }

  /** Every top-level reference names a call of the program. */
  ghost predicate RefsInside(p: Prog)
  {
    forall i, j | 0 <= i < |p| && 0 <= j < |p[i].args| && p[i].args[j].ResV? && p[i].args[j].ref.Produced? ::
      p[i].args[j].ref.call < |p|
  }

  lemma SubsetAll(p: Prog)
    requires RefsInside(p)
    ensures Subset(p, All(|p|)) == p
  {
    hide Position;
    var q, all := Subset(p, All(|p|)), All(|p|);
    forall i | 0 <= i < |p| ensures q[i] == p[i] {
      forall j | 0 <= j < |p[i].args| ensures q[i].args[j] == p[i].args[j] {
        var v := p[i].args[j];
        if v.ResV? && v.ref.Produced? {
          PositionIs(all, |p|, v.ref.call);
        }
      }
      assert q[i].args == p[i].args;
    }
  }

  /** The minimizer's promise, in terms of programs: what it returns reproduces whenever the input did, and
      taking any one call out of it does not, unless only one is left. */
  lemma Minimal(run: Runner, p: Prog, target: u32)
    requires RefsInside(p)
    ensures var q := Subset(p, Shrink(run, p, target, All(|p|)));
      && (Reproduces(run, p, target) ==> Reproduces(run, q, target))
      && (|q| <= 1 || forall pos | 0 <= pos < |q| :: !Reproduces(run, Subset(q, Cut(All(|q|), pos)), target))
      && (p != [] ==> Runs(run, p, target, All(|p|)) <= |p| * (|p| + 1) / 2 - 1)
  {
    hide FirstHit, Shrink, Runs, RemapArg;
    var all := All(|p|);
    SubsetAll(p);
    ShrinkMinimal(run, p, target, all);
    if p != [] {
      RunsBound(run, p, target, all);
    }
    var r := Shrink(run, p, target, all);
    var q := Subset(p, r);
    assert Hits(run, p, target, all) <==> Reproduces(run, p, target);
    if |q| > 1 {
      forall pos | 0 <= pos < |q| ensures !Reproduces(run, Subset(q, Cut(All(|q|), pos)), target) {
        assert !Hits(run, p, target, Cut(r, pos));
        CutKeeps(All(|q|), pos, |q|);
        SubsetTwice(p, r, Cut(All(|q|), pos));
        CutThrough(r, pos);
      }
    }
  }

  // ----- how long it can take -----

  /** `n` calls told apart by their numbers. */
  function Numbered(n: nat): (p: Prog)
    requires n < TWO32
    ensures |p| == n && forall i | 0 <= i < n :: p[i] == Call(Desc(i, [], NoRes), [])
  {
    seq(n, i requires 0 <= i < n => Call(Desc(i, [], NoRes), []))
  }

  predicate InPlace(p: Prog) { forall i | 0 <= i < |p| :: p[i].desc.nr == i }

  /** A crash that needs the first calls, and all of them. */
  function PrefixCrash(): Runner { p => if InPlace(p) then Some(Crash(0, "")) else None }

  lemma PrefixHits(n: nat, k: nat, pos: nat)
    requires k <= n < TWO32 && pos < k
    ensures Inside(All(k), n) && Inside(Cut(All(k), pos), n)
    ensures Hits(PrefixCrash(), Numbered(n), 0, Cut(All(k), pos)) <==> pos == k - 1
    ensures pos == k - 1 ==> Cut(All(k), pos) == All(k - 1)
  {
    var sub := Subset(Numbered(n), Cut(All(k), pos));
    if pos < k - 1 {
      assert sub[pos].desc.nr == pos + 1;
    } else {
      assert InPlace(sub);
    }
  }

  lemma {:induction false} PrefixFirst(n: nat, k: nat, pos: nat)
    requires k <= n < TWO32 && pos < k
    ensures Inside(All(k), n) && FirstHit(PrefixCrash(), Numbered(n), 0, All(k), pos) == Some(k - 1)
    decreases k - pos
  {
    hide Hits, Cut, All, PrefixCrash;
    PrefixHits(n, k, pos);
    if pos < k - 1 {
      PrefixFirst(n, k, pos + 1);
    }
  }

  /** The bound is reached: eight calls can take 35 runs, not the 28 the source's comment gives. */
  lemma {:induction false} BoundReached(n: nat, k: nat)
    requires 1 <= k <= n < TWO32
    ensures Inside(All(k), n) && Runs(PrefixCrash(), Numbered(n), 0, All(k)) == k * (k + 1) / 2 - 1
    ensures k == 8 ==> Runs(PrefixCrash(), Numbered(n), 0, All(k)) == 35
    decreases k
  {
    hide FirstHit, Hits, Cut, All, PrefixCrash, Numbered;
    if k > 1 {
      PrefixFirst(n, k, 0);
      PrefixHits(n, k, k - 1);
      BoundReached(n, k - 1);
      Triangle(k);
    }
  }
}
