/** Mutating and subsetting programs (crates/fs-prog/src/mutate.rs, genr.rs; crates/fs-cli/src/main.rs):
    every operator keeps references backward, compatible and naming the call they named. Random choices
    are parameters. */
module Mutation {
  import opened Words
  import opened Typed

  // ----- renumbering -----

  /** A reference moved by `f`, or turned into a seed. */
  datatype Move = To(call: nat) | Dangling(seed: i64)

  function Moved(v: ArgValue, m: Move): ArgValue
    requires v.ResV? && v.ref.Produced?
  {
    ResV(if m.To? then Produced(m.call, v.ref.slot) else Seed(m.seed))
  }

  /** Every produced resource argument moved; other arguments, and their number, stay. */
  function Renumber(c: Call, f: (nat, nat) -> Move): (r: Call)
    ensures r.desc == c.desc && |r.args| == |c.args|
    ensures forall j | 0 <= j < |c.args| ::
      r.args[j] == if RefAt(c, j) then Moved(c.args[j], f(j, c.args[j].ref.call)) else c.args[j]
  {
    Call(c.desc, seq(|c.args|, j requires 0 <= j < |c.args| =>
      if RefAt(c, j) then Moved(c.args[j], f(j, c.args[j].ref.call)) else c.args[j]))
  }

  predicate RefAt(c: Call, j: nat)
  {
    j < |c.args| && j < |c.desc.args| && c.desc.args[j].Res? && c.args[j].ResV? && c.args[j].ref.Produced?
  }

  function Bump(at: nat, i: nat): nat { if i >= at then i + 1 else i }

  function InsertMove(at: nat): (nat, nat) -> Move { (j: nat, c: nat) => To(Bump(at, c)) }

  function RemoveMove(at: nat, seeds: nat -> i64): (nat, nat) -> Move
  {
    (j: nat, c: nat) => if c == at then Dangling(seeds(j)) else To(if c > at then c - 1 else c)
  }

  /** `insert_call` at `at` of a call whose arguments were drawn from what precedes it. */
  function Insert(p: Prog, at: nat, c: Call): (q: Prog)
    requires at <= |p|
    ensures |q| == |p| + 1 && q[at] == c
    ensures forall i | 0 <= i < |p| :: q[Bump(at, i)] == Renumber(p[i], InsertMove(at))
  {
    seq(|p| + 1, i requires 0 <= i <= |p| =>
      if i < at then Renumber(p[i], InsertMove(at)) else if i == at then c else Renumber(p[i - 1], InsertMove(at)))
  }

  /** `remove_call` at `at`; `seeds(i, j)` is what a dangling argument falls back to. */
  function Remove(p: Prog, at: nat, seeds: nat -> nat -> i64): (q: Prog)
    requires at < |p|
    ensures |q| == |p| - 1
    ensures forall i | 0 <= i < |q| :: q[i] == Renumber(p[Bump(at, i)], RemoveMove(at, seeds(i)))
  {
    seq(|p| - 1, i requires 0 <= i < |p| - 1 => Renumber(p[Bump(at, i)], RemoveMove(at, seeds(i))))
  }

  /** Inserting a call and removing it again is the identity, whatever seeds are at hand. */
  lemma InsertThenRemove(p: Prog, at: nat, c: Call, seeds: nat -> nat -> i64)
    requires at <= |p|
    ensures Remove(Insert(p, at, c), at, seeds) == p
  {
    var q := Insert(p, at, c);
    var r := Remove(q, at, seeds);
    forall i | 0 <= i < |p| ensures r[i] == p[i] {
      RoundTrip(p[i], at, seeds(i));
    }
  }

  lemma RoundTrip(c: Call, at: nat, seeds: nat -> i64)
    ensures Renumber(Renumber(c, InsertMove(at)), RemoveMove(at, seeds)) == c
  {
    var r := Renumber(Renumber(c, InsertMove(at)), RemoveMove(at, seeds));
    assert r.args == c.args;
  }

  lemma InsertKeeps(parents: Parents, p: Prog, at: nat, c: Call)
    requires WellFormed(parents, p) && at <= |p| && CallOk(parents, p, at, c)
    ensures WellFormed(parents, Insert(p, at, c))
  {
    var q := Insert(p, at, c);
    forall i | 0 <= i < |q| ensures CallOk(parents, q, i, q[i]) {
      if i < at {
        assert CallOk(parents, p, i, p[i]) && q[Bump(at, i)] == Renumber(p[i], InsertMove(at));
        Carried(parents, p, q, i, i, p[i], q[i], InsertMove(at));
      } else if i > at {
        assert CallOk(parents, p, i - 1, p[i - 1]) && q[Bump(at, i - 1)] == Renumber(p[i - 1], InsertMove(at));
        Carried(parents, p, q, i - 1, i, p[i - 1], q[i], InsertMove(at));
      } else {
        forall j | 0 <= j < |c.args| && c.desc.args[j].Res? ensures RefOk(parents, q, i, c.desc.args[j].kind, c.args[j]) {
          assert RefOk(parents, p, at, c.desc.args[j].kind, c.args[j]);
          if c.args[j].ref.Produced? {
            var x := c.args[j].ref.call;
            assert q[Bump(at, x)].desc == p[x].desc;
          }
        }
      }
    }
  }

  /** `r` is `c` with every resource argument that names a producer moved by `f`; seeds stay. */
  ghost predicate Follows(c: Call, r: Call, f: (nat, nat) -> Move)
  {
    && r.desc == c.desc && |r.args| == |c.args|
    && (forall j: nat | RefAt(c, j) :: r.args[j] == Moved(c.args[j], f(j, c.args[j].ref.call)))
    && (forall j: nat | j < |c.args| && c.args[j].ResV? && c.args[j].ref.Seed? :: r.args[j] == c.args[j])
  }

  /** A move that keeps descriptions and order keeps a call well-formed. */
  lemma Carried(parents: Parents, p: Prog, q: Prog, i: nat, i': nat, c: Call, r: Call, f: (nat, nat) -> Move)
    requires i <= |p| && i' <= |q| && CallOk(parents, p, i, c) && Follows(c, r, f)
    requires forall j: nat, x: nat | x < i && RefAt(c, j) && c.args[j].ref.call == x && f(j, x).To? ::
      f(j, x).call < i' && q[f(j, x).call].desc == p[x].desc
    ensures CallOk(parents, q, i', r)
  {
    forall j | 0 <= j < |r.args| && r.desc.args[j].Res? ensures RefOk(parents, q, i', r.desc.args[j].kind, r.args[j]) {
      assert RefOk(parents, p, i, c.desc.args[j].kind, c.args[j]);
      if RefAt(c, j) {
        var m := f(j, c.args[j].ref.call);
        assert r.args[j] == Moved(c.args[j], m);
      }
    }
  }

  lemma RemoveKeeps(parents: Parents, p: Prog, at: nat, seeds: nat -> nat -> i64)
    requires WellFormed(parents, p) && at < |p|
    ensures WellFormed(parents, Remove(p, at, seeds))
  {
    var q := Remove(p, at, seeds);
    forall i | 0 <= i < |q| ensures CallOk(parents, q, i, q[i]) {
      var o := Bump(at, i);
      assert CallOk(parents, p, o, p[o]);
      forall j: nat, x: nat | x < o && RefAt(p[o], j) && p[o].args[j].ref.call == x && RemoveMove(at, seeds(i))(j, x).To?
        ensures var y := RemoveMove(at, seeds(i))(j, x).call; y < i && q[y].desc == p[x].desc
      {
        var y := RemoveMove(at, seeds(i))(j, x).call;
        assert Bump(at, y) == x;
      }
      Carried(parents, p, q, o, i, p[o], q[i], RemoveMove(at, seeds(i)));
    }
  }

  /** Call `x` of `p` is call `place(x)` of `q`: the same description, and every reference in it but those
      to `lost` names the call it named. */
  ghost predicate SameNames(p: Prog, q: Prog, place: nat -> nat, lost: Option<nat>)
  {
    forall i: nat | i < |p| && place(i) < |q| :: NamesAt(p[i], q[place(i)], place, lost)
  }

  ghost predicate NamesAt(c: Call, r: Call, place: nat -> nat, lost: Option<nat>)
  {
    && r.desc == c.desc && |r.args| == |c.args|
    && forall j: nat | j < |c.args| && !(RefAt(c, j) && lost == Some(c.args[j].ref.call)) ::
         r.args[j] == if RefAt(c, j) then ResV(Produced(place(c.args[j].ref.call), c.args[j].ref.slot)) else c.args[j]
  }

  function BumpAt(at: nat): nat -> nat { (i: nat) => Bump(at, i) }

  lemma InsertNames(p: Prog, at: nat, c: Call)
    requires at <= |p|
    ensures SameNames(p, Insert(p, at, c), BumpAt(at), None)
  {
    var q := Insert(p, at, c);
    forall i: nat | i < |p| ensures NamesAt(p[i], q[BumpAt(at)(i)], BumpAt(at), None) {
      assert q[Bump(at, i)] == Renumber(p[i], InsertMove(at));
    }
  }

  function Without(at: nat, len: nat): nat -> nat { (i: nat) => if i == at then len else if i > at then i - 1 else i }

  /** After a removal only the references to the removed call are lost. */
  lemma RemoveNames(p: Prog, at: nat, seeds: nat -> nat -> i64)
    requires at < |p|
    ensures SameNames(p, Remove(p, at, seeds), Without(at, |p|), Some(at))
  {
    var q, place := Remove(p, at, seeds), Without(at, |p|);
    forall i: nat | i < |p| && place(i) < |q| ensures NamesAt(p[i], q[place(i)], place, Some(at)) {
      assert Bump(at, place(i)) == i;
    }
  }

  // ----- choosing resources -----

  datatype PoolEntry = PoolEntry(call: nat, slot: nat, kind: Kind)

  function SlotCount(d: Produces): nat { match d case NoRes => 0 case Ret(_) => 1 case OutArray(_, _, n) => n }

  /** Every resource the first `n` calls produce. */
  ghost predicate PoolOf(p: Prog, n: nat, pool: seq<PoolEntry>)
    requires n <= |p|
  {
    forall e :: e in pool <==> e.call < n && p[e.call].desc.produces.KindAt(e.slot) == Some(e.kind)
  }

  method BuildPool(p: Prog, n: nat) returns (pool: seq<PoolEntry>)
    requires n <= |p|
    ensures PoolOf(p, n, pool)
  {
    pool := [];
    for i := 0 to n
      invariant PoolOf(p, i, pool)
    {
      var d := p[i].desc.produces;
      ghost var before := pool;
      for slot := 0 to SlotCount(d)
        invariant forall e :: e in pool <==> e in before || (e.call == i && e.slot < slot && d.KindAt(e.slot) == Some(e.kind))
      {
        pool := pool + [PoolEntry(i, slot, d.KindAt(slot).value)];
      }
    }
  }

  method Filter(parents: Parents, want: Kind, pool: seq<PoolEntry>) returns (r: seq<PoolEntry>)
    ensures forall e :: e in r <==> e in pool && Compat(parents, want, e.kind)
  {
    hide Compat;
    r := [];
    for i := 0 to |pool|
      invariant forall e :: e in r <==> e in pool[..i] && Compat(parents, want, e.kind)
    {
      assert pool[..i + 1] == pool[..i] + [pool[i]];
      if Compat(parents, want, pool[i].kind) {
        r := r + [pool[i]];
      }
    }
    assert pool[..|pool|] == pool;
  }

  /** Another resource of exactly the anchor's kind. */
  predicate Sibling(pool: seq<PoolEntry>, a: PoolEntry, e: PoolEntry)
  {
    e in pool && e.kind == a.kind && !(e.call == a.call && e.slot == a.slot)
  }

  /** `pick_res_biased`: a sibling of an anchor's exact kind, else any compatible entry, else a seed. */
  method PickResBiased(parents: Parents, want: Kind, pool: seq<PoolEntry>, anchors: seq<PoolEntry>, bias: bool,
                       choice: nat, useSeed: bool, seed: i64)
    returns (r: ResRef)
    ensures r.Seed? || exists e :: e in pool && r == Produced(e.call, e.slot) && Compat(parents, want, e.kind)
    ensures r.Seed? ==> r == Seed(seed) && (useSeed || forall e | e in pool :: !Compat(parents, want, e.kind))
    ensures bias && (exists a, e :: a in anchors && Compat(parents, want, a.kind) && Sibling(pool, a, e)) ==>
      exists a, e :: a in anchors && Compat(parents, want, a.kind) && Sibling(pool, a, e) && r == Produced(e.call, e.slot)
  {
    hide Compat;
    if bias {
      for a := 0 to |anchors|
        invariant forall x, e | 0 <= x < a && Compat(parents, want, anchors[x].kind) :: !Sibling(pool, anchors[x], e)
      {
        if Compat(parents, want, anchors[a].kind) {
          var siblings: seq<PoolEntry> := [];
          for i := 0 to |pool|
            invariant forall e :: e in siblings <==> e in pool[..i] && Sibling(pool, anchors[a], e)
          {
            assert pool[..i + 1] == pool[..i] + [pool[i]];
            if pool[i].kind == anchors[a].kind && !(pool[i].call == anchors[a].call && pool[i].slot == anchors[a].slot) {
              siblings := siblings + [pool[i]];
            }
          }
          assert pool[..|pool|] == pool;
          if siblings != [] {
            var e := siblings[choice % |siblings|];
            assert e in siblings && Sibling(pool, anchors[a], e);
            return Produced(e.call, e.slot);
          }
        }
      }
    }
    var compatible := Filter(parents, want, pool);
    if compatible == [] || useSeed {
      return Seed(seed);
    }
    var e := compatible[choice % |compatible|];
    assert e in compatible;
    r := Produced(e.call, e.slot);
  }

  /** A picked reference is a valid one for its place. */
  lemma PickedOk(parents: Parents, p: Prog, n: nat, want: Kind, pool: seq<PoolEntry>, r: ResRef)
    requires n <= |p| && PoolOf(p, n, pool)
    requires r.Seed? || exists e :: e in pool && r == Produced(e.call, e.slot) && Compat(parents, want, e.kind)
    ensures RefOk(parents, p, n, want, ResV(r))
  {
    hide Compat;
  }

  // ----- the other operators -----

  function SetArg(p: Prog, i: nat, j: nat, v: ArgValue): (q: Prog)
    requires i < |p| && j < |p[i].args|
    ensures |q| == |p| && (forall x | 0 <= x < |p| :: q[x].desc == p[x].desc)
    ensures forall x | 0 <= x < |p| && x != i :: q[x] == p[x]
    ensures q[i].args == p[i].args[j := v]
  {
    p[i := Call(p[i].desc, p[i].args[j := v])]
  }

  /** Rewiring one argument to a valid reference, or changing one that is no resource. */
  lemma SetKeeps(parents: Parents, p: Prog, i: nat, j: nat, v: ArgValue)
    requires WellFormed(parents, p) && i < |p| && j < |p[i].args|
    requires p[i].desc.args[j].Res? ==> RefOk(parents, p, i, p[i].desc.args[j].kind, v)
    ensures WellFormed(parents, SetArg(p, i, j, v))
  {
    var q := SetArg(p, i, j, v);
    forall x | 0 <= x < |q| ensures CallOk(parents, q, x, q[x]) {
      assert CallOk(parents, p, x, p[x]);
      forall y | 0 <= y < |q[x].args| && q[x].desc.args[y].Res? ensures RefOk(parents, q, x, q[x].desc.args[y].kind, q[x].args[y]) {
        assert (x == i && y == j) || RefOk(parents, p, x, p[x].desc.args[y].kind, p[x].args[y]);
      }
    }
  }

  /** `wire_producer` when a fresh producer goes in at `at <= i`: the argument then names it. */
  lemma WireKeeps(parents: Parents, p: Prog, i: nat, j: nat, at: nat, c: Call, slot: nat)
    requires WellFormed(parents, p) && i < |p| && j < |p[i].args| && p[i].desc.args[j].Res? && at <= i
    requires CallOk(parents, p, at, c)
    requires c.desc.produces.KindAt(slot).Some? && Compat(parents, p[i].desc.args[j].kind, c.desc.produces.KindAt(slot).value)
    ensures var q := Insert(p, at, c);
      i + 1 < |q| && j < |q[i + 1].args| && WellFormed(parents, SetArg(q, i + 1, j, ResV(Produced(at, slot))))
  {
    hide Compat;
    var q := Insert(p, at, c);
    InsertKeeps(parents, p, at, c);
    assert q[Bump(at, i)] == Renumber(p[i], InsertMove(at));
    SetKeeps(parents, q, i + 1, j, ResV(Produced(at, slot)));
  }

  // ----- what one mutation may do -----

  datatype Edit =
    | NoEdit
    | InsertAt(at: nat, c: Call)
    | RemoveAt(at: nat, seeds: nat -> nat -> i64)
    | SetAt(i: nat, j: nat, v: ArgValue)
    | WireIn(at: nat, c: Call, i: nat, j: nat, slot: nat)

  /** `q` is `p` after one edit; `WireIn` inserts a producer and points one later argument at it. */
  ghost predicate Edited(p: Prog, e: Edit, q: Prog)
  {
    match e
    case NoEdit => q == p
    case InsertAt(at, c) => at <= |p| && q == Insert(p, at, c)
    case RemoveAt(at, seeds) => at < |p| && q == Remove(p, at, seeds)
    case SetAt(i, j, v) => i < |p| && j < |p[i].args| && q == SetArg(p, i, j, v)
    case WireIn(at, c, i, j, slot) =>
      at <= i < |p| && j < |p[i].args| && |Insert(p, at, c)[i + 1].args| == |p[i].args| &&
      q == SetArg(Insert(p, at, c), i + 1, j, ResV(Produced(at, slot)))
  }

  /** Where call `i` of an `n`-call program goes. */
  function PlaceOf(e: Edit, n: nat): nat -> nat
  {
    match e
    case InsertAt(at, _) => BumpAt(at)
    case RemoveAt(at, _) => Without(at, n)
    case WireIn(at, _, _, _, _) => BumpAt(at)
    case _ => (i: nat) => i
  }

  function LostOf(e: Edit): Option<nat> { if e.RemoveAt? then Some(e.at) else None }

  /** The one argument that is deliberately changed. */
  predicate Touched(e: Edit, i: nat, j: nat) { (e.SetAt? || e.WireIn?) && e.i == i && e.j == j }

  ghost predicate NamesBut(p: Prog, e: Edit, q: Prog)
  {
    forall i: nat | i < |p| && PlaceOf(e, |p|)(i) < |q| :: NamesButAt(p[i], q[PlaceOf(e, |p|)(i)], e, |p|, i)
  }

  ghost predicate NamesButAt(c: Call, r: Call, e: Edit, n: nat, i: nat)
  {
    && r.desc == c.desc && |r.args| == |c.args|
    && forall j: nat | j < |c.args| && !Touched(e, i, j) && !(RefAt(c, j) && LostOf(e) == Some(c.args[j].ref.call)) ::
         r.args[j] == if RefAt(c, j) then ResV(Produced(PlaceOf(e, n)(c.args[j].ref.call), c.args[j].ref.slot)) else c.args[j]
  }

  /** Every surviving reference that was not deliberately rewired, and did not name the removed call, still
      names the call it named; every other argument but the touched one is unchanged. */
  lemma EditNames(p: Prog, e: Edit, q: Prog)
    requires Edited(p, e, q)
    ensures NamesBut(p, e, q)
  {
    hide Renumber, Insert, Remove, SetArg, NamesButAt;
    forall i: nat | i < |p| && PlaceOf(e, |p|)(i) < |q| ensures NamesButAt(p[i], q[PlaceOf(e, |p|)(i)], e, |p|, i) {
      match e {
        case InsertAt(at, c) => InsertEdit(p, e, i);
        case RemoveAt(at, seeds) => RemoveEdit(p, e, i);
        case WireIn(at, c, _, _, _) => WireEdit(p, e, q, i);
        case _ => SetEdit(p, e, q, i);
      }
    }
  }

  lemma InsertEdit(p: Prog, e: Edit, i: nat)
    requires e.InsertAt? && e.at <= |p| && i < |p|
    ensures NamesButAt(p[i], Insert(p, e.at, e.c)[Bump(e.at, i)], e, |p|, i)
  {
    hide Renumber, Insert;
    InsertNames(p, e.at, e.c);
    assert NamesAt(p[i], Insert(p, e.at, e.c)[BumpAt(e.at)(i)], BumpAt(e.at), None);
  }

  lemma RemoveEdit(p: Prog, e: Edit, i: nat)
    requires e.RemoveAt? && e.at < |p| && i < |p| && Without(e.at, |p|)(i) < |p| - 1
    ensures NamesButAt(p[i], Remove(p, e.at, e.seeds)[Without(e.at, |p|)(i)], e, |p|, i)
  {
    hide Renumber, Remove;
    RemoveNames(p, e.at, e.seeds);
    assert NamesAt(p[i], Remove(p, e.at, e.seeds)[Without(e.at, |p|)(i)], Without(e.at, |p|), Some(e.at));
  }

  lemma WireEdit(p: Prog, e: Edit, q: Prog, i: nat)
    requires e.WireIn? && Edited(p, e, q) && i < |p|
    ensures NamesButAt(p[i], q[Bump(e.at, i)], e, |p|, i)
  {
    hide Renumber, Insert;
    InsertNames(p, e.at, e.c);
    var mid := Insert(p, e.at, e.c);
    assert NamesAt(p[i], mid[BumpAt(e.at)(i)], BumpAt(e.at), None);
    assert i != e.i ==> q[Bump(e.at, i)] == mid[Bump(e.at, i)];
  }

  lemma SetEdit(p: Prog, e: Edit, q: Prog, i: nat)
    requires (e.NoEdit? || e.SetAt?) && Edited(p, e, q) && i < |p|
    ensures |q| == |p| && NamesButAt(p[i], q[i], e, |p|, i)
  {
    SelfNames(p, i, q[i], e);
  }

  // ----- the numbers after an edit -----

  /** Insertion moves what stands at the place and after it one further on, references to it included. */
  lemma InsertMeans(p: Prog, at: nat, c: Call, i: nat, j: nat)
    requires at <= |p| && i < |p| && j < |p[i].args|
    ensures var q, i' := Insert(p, at, c), if i < at then i else i + 1;
      && |q| == |p| + 1 && q[at] == c && q[i'].desc == p[i].desc && |q[i'].args| == |p[i].args|
      && (RefAt(p[i], j) ==>
            var r := p[i].args[j].ref; q[i'].args[j] == ResV(Produced(if r.call < at then r.call else r.call + 1, r.slot)))
      && (!RefAt(p[i], j) ==> q[i'].args[j] == p[i].args[j])
  {
    assert Insert(p, at, c)[Bump(at, i)] == Renumber(p[i], InsertMove(at));
  }

  /** Removal moves what stood after the call one nearer, references included; a reference to the call itself
      becomes the seed drawn for its place. */
  lemma RemoveMeans(p: Prog, at: nat, seeds: nat -> nat -> i64, i: nat, j: nat)
    requires at < |p| && i < |p| && i != at && j < |p[i].args|
    ensures var q, i' := Remove(p, at, seeds), if i < at then i else i - 1;
      && |q| == |p| - 1 && q[i'].desc == p[i].desc && |q[i'].args| == |p[i].args|
      && (RefAt(p[i], j) ==>
            var r := p[i].args[j].ref;
            q[i'].args[j] == ResV(if r.call == at then Seed(seeds(i')(j)) else Produced(if r.call < at then r.call else r.call - 1, r.slot)))
      && (!RefAt(p[i], j) ==> q[i'].args[j] == p[i].args[j])
  {
    var q, i' := Remove(p, at, seeds), if i < at then i else i - 1;
    assert q[i'] == Renumber(p[Bump(at, i')], RemoveMove(at, seeds(i'))) && Bump(at, i') == i;
  }

  // ----- references inside pointers and structs -----

  /** The references in a value, in order. */
  function RefsIn(v: ArgValue): seq<(nat, nat)>
    decreases v, 0
  {
    match v
    case ResV(Produced(c, slot)) => [(c, slot)]
    case StructV(vals) => RefsInFields(v, |vals|)
    case PtrV(inner) => RefsIn(inner)
    case _ => []
  }

  function RefsInFields(v: ArgValue, k: nat): seq<(nat, nat)>
    requires v.StructV? && k <= |v.vals|
    decreases v, 0, k
  {
    if k == 0 then [] else RefsInFields(v, k - 1) + RefsIn(v.vals[k - 1])
  }

  ghost predicate KeepsRefs(v: ArgValue, r: ArgValue, place: nat -> nat)
  {
    var a, b := RefsIn(v), RefsIn(r);
    |a| == |b| && forall x | 0 <= x < |a| :: b[x] == (place(a[x].0), a[x].1)
  }

  /** Argument `j` of call `i` survives the edit, and is not the one it changes or turns into a seed. */
  ghost predicate Stays(p: Prog, e: Edit, i: nat, j: nat)
  {
    && i < |p| && j < |p[i].args| && !(e.RemoveAt? && i == e.at)
    && !Touched(e, i, j) && !(RefAt(p[i], j) && LostOf(e) == Some(p[i].args[j].ref.call))
  }

  ghost predicate ArgNamed(p: Prog, e: Edit, q: Prog, i: nat, j: nat)
    requires Stays(p, e, i, j)
  {
    var i' := PlaceOf(e, |p|)(i);
    i' < |q| && j < |q[i'].args| && KeepsRefs(p[i].args[j], q[i'].args[j], PlaceOf(e, |p|))
  }

  /** Every reference that stays, however nested, names the call it named. */
  ghost predicate AllNamed(p: Prog, e: Edit, q: Prog)
  {
    forall i: nat, j: nat | Stays(p, e, i, j) :: ArgNamed(p, e, q, i, j)
  }

  /** Where calls start to move. */
  function EditPoint(e: Edit): Option<nat>
  {
    if e.InsertAt? || e.RemoveAt? || e.WireIn? then Some(e.at) else None
  }

  ghost predicate ArgBefore(p: Prog, e: Edit, i: nat, j: nat)
    requires Stays(p, e, i, j)
  {
    EditPoint(e).Some? && !RefAt(p[i], j) ==>
      forall x: nat | x < |RefsIn(p[i].args[j])| :: RefsIn(p[i].args[j])[x].0 < EditPoint(e).value
  }

  /** No reference inside a pointer or a struct is to a call at or past the edit. */
  ghost predicate NestedBefore(p: Prog, e: Edit)
  {
    forall i: nat, j: nat | Stays(p, e, i, j) :: ArgBefore(p, e, i, j)
  }

  lemma PlaceMoves(e: Edit, n: nat, c: nat)
    requires e.RemoveAt? ==> e.at < n
    ensures PlaceOf(e, n)(c) == c <==> EditPoint(e).None? || c < EditPoint(e).value
  {
  }

  /** Renumbering looks at resource arguments only, so the exact condition for all references to keep their
      names is that none inside a pointer or a struct is to a call that moves. */
  lemma EditNamesAllIff(p: Prog, e: Edit, q: Prog)
    requires Edited(p, e, q)
    ensures AllNamed(p, e, q) <==> NestedBefore(p, e)
  {
    hide Edited, Stays, ArgNamed, ArgBefore, NamesBut;
    EditNames(p, e, q);
    forall i: nat, j: nat | Stays(p, e, i, j) ensures ArgNamed(p, e, q, i, j) <==> ArgBefore(p, e, i, j) {
      OneArg(p, e, q, i, j);
    }
  }

  lemma StaysInside(p: Prog, e: Edit, q: Prog, i: nat, j: nat)
    requires Edited(p, e, q) && Stays(p, e, i, j)
    ensures PlaceOf(e, |p|)(i) < |q|
  {
  }

  lemma OneArg(p: Prog, e: Edit, q: Prog, i: nat, j: nat)
    requires Edited(p, e, q) && Stays(p, e, i, j) && NamesBut(p, e, q)
    ensures ArgNamed(p, e, q, i, j) <==> ArgBefore(p, e, i, j)
  {
    hide PlaceOf, RefsIn, KeepsRefs, Fixed;
    StaysInside(p, e, q, i, j);
    RemoveInside(p, e, q);
    hide Edited;
    var place := PlaceOf(e, |p|);
    var v := p[i].args[j];
    NamedAt(p, e, q, i);
    hide NamesBut;
    if RefAt(p[i], j) {
      TopMoves(v, place);
    } else {
      KeptIff(v, place);
      FixedIff(e, |p|, RefsIn(v));
    }
  }

  lemma TopMoves(v: ArgValue, place: nat -> nat)
    requires v.ResV? && v.ref.Produced?
    ensures KeepsRefs(v, ResV(Produced(place(v.ref.call), v.ref.slot)), place)
  {
  }

  lemma FixedIff(e: Edit, n: nat, refs: seq<(nat, nat)>)
    requires e.RemoveAt? ==> e.at < n
    ensures Fixed(refs, PlaceOf(e, n)) <==>
      (EditPoint(e).Some? ==> forall x: nat | x < |refs| :: refs[x].0 < EditPoint(e).value)
  {
    hide PlaceOf;
    forall x | 0 <= x < |refs|
      ensures PlaceOf(e, n)(refs[x].0) == refs[x].0 <==> (EditPoint(e).Some? ==> refs[x].0 < EditPoint(e).value)
    {
      PlaceMoves(e, n, refs[x].0);
    }
    if Fixed(refs, PlaceOf(e, n)) && EditPoint(e).Some? {
      forall x: nat | x < |refs| ensures refs[x].0 < EditPoint(e).value {
        assert PlaceOf(e, n)(refs[x].0) == refs[x].0;
      }
    }
  }

  ghost predicate Fixed(refs: seq<(nat, nat)>, place: nat -> nat)
  {
    forall x | 0 <= x < |refs| :: place(refs[x].0) == refs[x].0
  }

  lemma KeptIff(v: ArgValue, place: nat -> nat)
    ensures KeepsRefs(v, v, place) <==> Fixed(RefsIn(v), place)
  {
    hide RefsIn;
    var a := RefsIn(v);
    if KeepsRefs(v, v, place) {
      forall x | 0 <= x < |a| ensures place(a[x].0) == a[x].0 {
        assert a[x] == (place(a[x].0), a[x].1);
      }
    }
    if Fixed(a, place) {
      forall x | 0 <= x < |a| ensures a[x] == (place(a[x].0), a[x].1) {
        assert a[x] == (a[x].0, a[x].1);
      }
    }
  }

  lemma NamedAt(p: Prog, e: Edit, q: Prog, i: nat)
    requires NamesBut(p, e, q) && i < |p| && PlaceOf(e, |p|)(i) < |q|
    ensures NamesButAt(p[i], q[PlaceOf(e, |p|)(i)], e, |p|, i)
  {
  }

  lemma RemoveInside(p: Prog, e: Edit, q: Prog)
    requires Edited(p, e, q)
    ensures e.RemoveAt? ==> e.at < |p|
  {
  }

  /** A well-formed program whose reference inside a pointer comes to name another call. */
  lemma NestedSlips(c: Call)
    requires CallOk([], [], 0, c)
    ensures var p := [Call(Desc(0, [], Ret(0)), []), Call(Desc(1, [PtrT(Res(0), false)], NoRes), [PtrV(ResV(Produced(0, 0)))])];
      var q := Insert(p, 0, c);
      && WellFormed([], p) && WellFormed([], q) && q[1] == p[0]
      && RefsIn(p[1].args[0]) == RefsIn(q[2].args[0]) == [(0, 0)] && q[0] == c
  {
    var p := [Call(Desc(0, [], Ret(0)), []), Call(Desc(1, [PtrT(Res(0), false)], NoRes), [PtrV(ResV(Produced(0, 0)))])];
    InsertKeeps([], p, 0, c);
    var q := Insert(p, 0, c);
    assert q[Bump(0, 0)] == Renumber(p[0], InsertMove(0)) && q[Bump(0, 1)] == Renumber(p[1], InsertMove(0));
    assert Renumber(p[0], InsertMove(0)).args == [];
  }

  lemma SelfNames(p: Prog, i: nat, r: Call, e: Edit)
    requires i < |p| && r.desc == p[i].desc && |r.args| == |p[i].args| && (e.NoEdit? || e.SetAt?)
    requires forall j: nat | j < |r.args| && !Touched(e, i, j) :: r.args[j] == p[i].args[j]
    ensures NamesButAt(p[i], r, e, |p|, i)
  {
  }

  // ----- the fault-injection preamble -----

  function ShiftMove(n: nat): (nat, nat) -> Move { (j: nat, c: nat) => To(c + n) }

  /** `shift_produced_call_idx`: every reference in a value, however deep, `n` calls later. */
  function ShiftRefs(v: ArgValue, n: nat): ArgValue
  {
    match v
    case ResV(Produced(c, slot)) => ResV(Produced(c + n, slot))
    case StructV(vals) => StructV(seq(|vals|, x requires 0 <= x < |vals| => ShiftRefs(vals[x], n)))
    case PtrV(inner) => PtrV(ShiftRefs(inner, n))
    case _ => v
  }

  function ShiftCall(c: Call, n: nat): (r: Call)
    ensures r.desc == c.desc && |r.args| == |c.args| && forall j | 0 <= j < |c.args| :: r.args[j] == ShiftRefs(c.args[j], n)
  {
    Call(c.desc, seq(|c.args|, j requires 0 <= j < |c.args| => ShiftRefs(c.args[j], n)))
  }

  ghost predicate AllLater(a: seq<(nat, nat)>, b: seq<(nat, nat)>, n: nat)
  {
    |a| == |b| && forall x | 0 <= x < |a| :: b[x] == (a[x].0 + n, a[x].1)
  }

  /** Shifting moves every reference and adds or drops none. */
  lemma {:induction false} ShiftMovesAll(v: ArgValue, n: nat)
    ensures AllLater(RefsIn(v), RefsIn(ShiftRefs(v, n)), n)
    decreases v, 1
  {
    match v {
      case StructV(vals) => ShiftMovesFields(v, n, |vals|);
      case PtrV(inner) => ShiftMovesAll(inner, n);
      case _ =>
    }
  }

  lemma {:induction false} ShiftMovesFields(v: ArgValue, n: nat, k: nat)
    requires v.StructV? && k <= |v.vals|
    ensures ShiftRefs(v, n).StructV? && |ShiftRefs(v, n).vals| == |v.vals|
    ensures AllLater(RefsInFields(v, k), RefsInFields(ShiftRefs(v, n), k), n)
    decreases v, 0, k
  {
    if k > 0 {
      ShiftMovesFields(v, n, k - 1);
      ShiftMovesAll(v.vals[k - 1], n);
    }
  }

  /** Two calls in front, everything else two further on, cut to what fits. */
  function Prepend(p: Prog, a: Call, b: Call): (q: Prog)
    ensures |q| == if |p| + 2 < MAX_CALLS then |p| + 2 else MAX_CALLS
    ensures q[0] == a && q[1] == b && forall i | 2 <= i < |q| :: q[i] == ShiftCall(p[i - 2], 2)
  {
    var n := if |p| + 2 < MAX_CALLS then |p| + 2 else MAX_CALLS;
    seq(n, i requires 0 <= i < n => if i == 0 then a else if i == 1 then b else ShiftCall(p[i - 2], 2))
  }

  /** Every old call that still fits stands two further on, its references naming the calls they named. */
  ghost predicate Pushed(p: Prog, q: Prog)
  {
    forall i: nat | i < |p| && i + 2 < |q| :: PushedAt(p[i], q[i + 2])
  }

  ghost predicate PushedAt(c: Call, r: Call)
  {
    && r.desc == c.desc && |r.args| == |c.args|
    && forall j | 0 <= j < |c.args| :: AllLater(RefsIn(c.args[j]), RefsIn(r.args[j]), 2)
  }

  lemma PrependKeeps(parents: Parents, p: Prog, a: Call, b: Call)
    requires WellFormed(parents, p) && CallOk(parents, [], 0, a) && CallOk(parents, [a], 1, b)
    ensures WellFormed(parents, Prepend(p, a, b)) && |Prepend(p, a, b)| <= MAX_CALLS
    ensures Pushed(p, Prepend(p, a, b))
  {
    var q := Prepend(p, a, b);
    forall i | 0 <= i < |q| ensures CallOk(parents, q, i, q[i]) {
      if i >= 2 {
        assert CallOk(parents, p, i - 2, p[i - 2]);
        Carried(parents, p, q, i - 2, i, p[i - 2], q[i], ShiftMove(2));
      } else if i == 1 {
        forall j | 0 <= j < |b.args| && b.desc.args[j].Res? ensures RefOk(parents, q, 1, b.desc.args[j].kind, b.args[j]) {
          assert RefOk(parents, [a], 1, b.desc.args[j].kind, b.args[j]);
        }
      } else {
        forall j | 0 <= j < |a.args| && a.desc.args[j].Res? ensures RefOk(parents, q, 0, a.desc.args[j].kind, a.args[j]) {
          assert RefOk(parents, [], 0, a.desc.args[j].kind, a.args[j]);
        }
      }
    }
    forall i: nat | i < |p| && i + 2 < |q| ensures PushedAt(p[i], q[i + 2]) {
      forall j | 0 <= j < |p[i].args| ensures AllLater(RefsIn(p[i].args[j]), RefsIn(q[i + 2].args[j]), 2) {
        ShiftMovesAll(p[i].args[j], 2);
      }
    }
  }

  // ----- subsets -----

  ghost predicate Increasing(keep: seq<nat>, n: nat)
  {
    (forall x | 0 <= x < |keep| :: keep[x] < n) && forall x, y | 0 <= x < y < |keep| :: keep[x] < keep[y]
  }

  /** The position of an old index among the kept ones. */
  function Position(keep: seq<nat>, old_: nat): (r: Option<nat>)
    ensures r.Some? ==> r.value < |keep| && keep[r.value] == old_
    ensures r.None? ==> old_ !in keep
    decreases |keep|
  {
    if keep == [] then None
    else if keep[|keep| - 1] == old_ then Some(|keep| - 1)
    else Position(keep[..|keep| - 1], old_)
  }

  function SubsetMove(keep: seq<nat>): (nat, nat) -> Move
  {
    (j: nat, c: nat) => var at := Position(keep, c); if at.Some? then To(at.value) else Dangling(-100)
  }

  /** Every top-level reference, whatever the argument's type. */
  function Remap(c: Call, keep: seq<nat>): (r: Call)
    ensures r.desc == c.desc && |r.args| == |c.args|
    ensures forall j | 0 <= j < |c.args| :: r.args[j] == RemapArg(c.args[j], keep)
  {
    Call(c.desc, seq(|c.args|, j requires 0 <= j < |c.args| => RemapArg(c.args[j], keep)))
  }

  function RemapArg(v: ArgValue, keep: seq<nat>): ArgValue
  {
    if v.ResV? && v.ref.Produced? then Moved(v, SubsetMove(keep)(0, v.ref.call)) else v
  }

  /** `subset_prog`: the kept calls in order; references to dropped producers become a seed. */
  function Subset(p: Prog, keep: seq<nat>): (q: Prog)
    requires forall x | 0 <= x < |keep| :: keep[x] < |p|
    ensures |q| == |keep| && forall x | 0 <= x < |keep| :: q[x] == Remap(p[keep[x]], keep)
  {
    seq(|keep|, x requires 0 <= x < |keep| => Remap(p[keep[x]], keep))
  }

  lemma InOrder(keep: seq<nat>, n: nat, y: nat, x: nat)
    requires Increasing(keep, n) && y < |keep| && x < |keep| && keep[y] < keep[x]
    ensures y < x
  {
  }

  lemma SubsetKeeps(parents: Parents, p: Prog, keep: seq<nat>)
    requires WellFormed(parents, p) && Increasing(keep, |p|)
    ensures WellFormed(parents, Subset(p, keep))
  {
    hide Position;
    var q := Subset(p, keep);
    forall x | 0 <= x < |q| ensures CallOk(parents, q, x, q[x]) {
      assert CallOk(parents, p, keep[x], p[keep[x]]);
      forall j: nat, c: nat | c < keep[x] && RefAt(p[keep[x]], j) && p[keep[x]].args[j].ref.call == c && SubsetMove(keep)(j, c).To?
        ensures var y := SubsetMove(keep)(j, c).call; y < x && q[y].desc == p[c].desc
      {
        var y := SubsetMove(keep)(j, c).call;
        assert keep[y] == c;
        InOrder(keep, |p|, y, x);
      }
      Carried(parents, p, q, keep[x], x, p[keep[x]], q[x], SubsetMove(keep));
    }
  }

  /** A reference to a kept call names it at its new place; one to a dropped call is the bogus seed. */
  lemma SubsetNames(p: Prog, keep: seq<nat>, x: nat, j: nat)
    requires Increasing(keep, |p|) && x < |keep| && j < |p[keep[x]].args|
    requires p[keep[x]].args[j].ResV? && p[keep[x]].args[j].ref.Produced?
    ensures var ref, r := p[keep[x]].args[j].ref, Subset(p, keep)[x];
      && j < |r.args| && r.desc == p[keep[x]].desc
      && if ref.call in keep then
           r.args[j].ResV? && r.args[j].ref.Produced? && r.args[j].ref.slot == ref.slot &&
           r.args[j].ref.call < |keep| && keep[r.args[j].ref.call] == ref.call
         else r.args[j] == ResV(Seed(-100))
  {
    hide Position;
    var ref := p[keep[x]].args[j].ref;
    assert Subset(p, keep)[x] == Remap(p[keep[x]], keep);
    assert Position(keep, ref.call).Some? ==> keep[Position(keep, ref.call).value] == ref.call;
  }

  /** Every reference in `v`, however nested, names in the subset the call that it named, in `was`, before. */
  ghost predicate StillNames(was: ArgValue, v: ArgValue, keep: seq<nat>)
  {
    var a, b := RefsIn(was), RefsIn(v);
    |a| == |b| && forall y | 0 <= y < |a| :: StillNamesAt(a[y], b[y], keep)
  }

  ghost predicate StillNamesAt(was: (nat, nat), now: (nat, nat), keep: seq<nat>)
  {
    now.1 == was.1 && now.0 < |keep| && keep[now.0] == was.0
  }

  ghost predicate KeptUpTo(keep: seq<nat>, c: nat) { forall y | 0 <= y <= c :: y in keep }

  ghost predicate AllKeptUpTo(keep: seq<nat>, refs: seq<(nat, nat)>)
  {
    forall y | 0 <= y < |refs| :: KeptUpTo(keep, refs[y].0)
  }

  /** Subsetting too looks at resource arguments only: any other is carried over as it is, and the references
      inside it still name their calls iff each such call, and everything before it, is kept. */
  lemma SubsetNested(p: Prog, keep: seq<nat>, x: nat, j: nat)
    requires Increasing(keep, |p|) && x < |keep| && j < |p[keep[x]].args|
    requires !(p[keep[x]].args[j].ResV? && p[keep[x]].args[j].ref.Produced?)
    ensures var v, r := p[keep[x]].args[j], Subset(p, keep)[x].args[j];
      r == v && (StillNames(v, r, keep) <==> AllKeptUpTo(keep, RefsIn(v)))
  {
    hide RefsIn, KeptUpTo, StillNamesAt;
    Untouched(p[keep[x]].args[j], keep);
    var refs := RefsIn(p[keep[x]].args[j]);
    forall y | 0 <= y < |refs| ensures StillNamesAt(refs[y], refs[y], keep) <==> KeptUpTo(keep, refs[y].0) {
      OwnPlace(keep, |p|, refs[y].0);
      assert StillNamesAt(refs[y], refs[y], keep) <==> refs[y].0 < |keep| && keep[refs[y].0] == refs[y].0 by { AtItself(refs[y], keep); }
    }
  }

  lemma AtItself(r: (nat, nat), keep: seq<nat>)
    ensures StillNamesAt(r, r, keep) <==> r.0 < |keep| && keep[r.0] == r.0
  {
  }

  lemma Untouched(v: ArgValue, keep: seq<nat>)
    requires !(v.ResV? && v.ref.Produced?)
    ensures RemapArg(v, keep) == v
  {
  }

  /** A kept call keeps its number iff everything before it is kept too. */
  lemma OwnPlace(keep: seq<nat>, n: nat, c: nat)
    requires Increasing(keep, n)
    ensures c < |keep| && keep[c] == c <==> KeptUpTo(keep, c)
  {
    if c < |keep| && keep[c] == c {
      forall y | 0 <= y <= c ensures y in keep {
        Packed(keep, n, c, y);
      }
    }
    if KeptUpTo(keep, c) {
      AllBelow(keep, n, c);
    }
  }

  /** An increasing list that has `c` at position `c` starts with everything up to `c`. */
  lemma {:induction false} Packed(keep: seq<nat>, n: nat, c: nat, y: nat)
    requires Increasing(keep, n) && y <= c < |keep| && keep[c] == c
    ensures keep[y] == y
    decreases c - y
  {
    if y < c {
      Packed(keep, n, c, y + 1);
      AtLeast(keep, n, y);
    }
  }

  lemma {:induction false} AtLeast(keep: seq<nat>, n: nat, y: nat)
    requires Increasing(keep, n) && y < |keep|
    ensures keep[y] >= y
    decreases y
  {
    if y > 0 {
      AtLeast(keep, n, y - 1);
    }
  }

  lemma {:induction false} AllBelow(keep: seq<nat>, n: nat, c: nat)
    requires Increasing(keep, n) && forall y | 0 <= y <= c :: y in keep
    ensures c < |keep| && keep[c] == c
    decreases c
  {
    assert c in keep;
    var x :| 0 <= x < |keep| && keep[x] == c;
    AtLeast(keep, n, x);
    if c > 0 {
      AllBelow(keep, n, c - 1);
      assert keep[c - 1] == c - 1;
    }
  }
}
