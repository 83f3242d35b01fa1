/** Coverage feedback (crates/fs-cov/src/lib.rs): hit counters, their classes, and the accumulated map. */
module Coverage {
  import opened Words

  const MAP_SIZE: nat := 0x1_0000

  type Hits = s: seq<u8> | |s| == MAP_SIZE witness seq(MAP_SIZE, _ => 0)

  function Classify(count: u8): (c: u8)
    ensures c <= 8 && (c == 0 <==> count == 0)
  {
    if count <= 3 then count
    else if count <= 7 then 4
    else if count <= 15 then 5
    else if count <= 31 then 6
    else if count <= 127 then 7
    else 8
  }

  /** More hits never lower the class. */
  lemma ClassifyMonotone(a: u8, b: u8)
    requires a <= b
    ensures Classify(a) <= Classify(b)
  {
  }

  /** The class is the number of thresholds reached. */
  lemma ClassifyMeans(count: u8)
    ensures Classify(count) == Step(count, 1) + Step(count, 2) + Step(count, 3) + Step(count, 4) + Step(count, 8) +
                               Step(count, 16) + Step(count, 32) + Step(count, 128)
  {
  }

  function Step(count: nat, threshold: nat): nat { if count >= threshold then 1 else 0 }

  predicate HasNew(classes: Hits, run: Hits) { exists i | 0 <= i < MAP_SIZE :: Classify(run[i]) > classes[i] }

  function Join(classes: Hits, run: Hits): Hits
  {
    seq(MAP_SIZE, i requires 0 <= i < MAP_SIZE => if Classify(run[i]) > classes[i] then Classify(run[i]) else classes[i])
  }

  ghost predicate Below(a: Hits, b: Hits) { forall i | 0 <= i < MAP_SIZE :: a[i] <= b[i] }

  /** Nothing new to a map is nothing new to any map above it, and joining it changes nothing. */
  lemma NothingNew(a: Hits, b: Hits, run: Hits)
    requires Below(a, b) && !HasNew(a, run)
    ensures !HasNew(b, run) && Join(b, run) == b && Join(a, run) == a
  {
    assert Join(b, run) == b by {
      assert forall i | 0 <= i < MAP_SIZE :: Join(b, run)[i] == b[i];
    }
    assert Join(a, run) == a;
  }

  lemma JoinAbove(a: Hits, b: Hits, run: Hits)
    requires Below(a, b)
    ensures Below(b, Join(b, run)) && Below(Join(a, run), Join(b, run))
  {
  }

  /** Folding a run in gives the least map that is above the old one and the run's classes; a run is new iff
      that is another map. */
  lemma JoinLeast(a: Hits, run: Hits, b: Hits)
    ensures Below(a, Join(a, run)) && forall i | 0 <= i < MAP_SIZE :: Classify(run[i]) <= Join(a, run)[i]
    ensures Below(a, b) && (forall i | 0 <= i < MAP_SIZE :: Classify(run[i]) <= b[i]) ==> Below(Join(a, run), b)
    ensures HasNew(a, run) <==> Join(a, run) != a
  {
    hide Classify;
    if !HasNew(a, run) {
      assert forall i | 0 <= i < MAP_SIZE :: Join(a, run)[i] == a[i];
      assert Join(a, run) == a;
    } else {
      var i :| 0 <= i < MAP_SIZE && Classify(run[i]) > a[i];
      assert Join(a, run)[i] != a[i];
    }
  }

  lemma BelowTrans(a: Hits, b: Hits, c: Hits)
    requires Below(a, b) && Below(b, c)
    ensures Below(a, c)
  {
    forall i | 0 <= i < MAP_SIZE ensures a[i] <= c[i] {
      assert a[i] <= b[i] <= c[i];
    }
  }

  /** A run that hits everywhere at least as often is new wherever the other is; and once it has been folded
      in, the other is new nowhere. */
  lemma MoreHits(classes: Hits, less: Hits, more: Hits)
    requires Below(less, more)
    ensures HasNew(classes, less) ==> HasNew(classes, more)
    ensures Below(Join(classes, less), Join(classes, more)) && !HasNew(Join(classes, more), less)
  {
    hide Classify;
    forall i | 0 <= i < MAP_SIZE ensures Classify(less[i]) <= Classify(more[i]) {
      ClassifyMonotone(less[i], more[i]);
    }
  }

  function Edge(prev: u32, cur: u32): (i: nat)
    ensures i < MAP_SIZE
  {
    Bits32(BitXor, prev / 2, cur) % MAP_SIZE
  }

  lemma {:induction false} LowBits(x: nat, n: nat, i: nat)
    requires i < n
    ensures BitAt(x % Pow2(n), i) == BitAt(x, i)
    decreases n
  {
    hide BitAt;
    var y := x % Pow2(n);
    HalfRem(x, Pow2(n - 1));
    assert y / 2 == x / 2 % Pow2(n - 1) && y % 2 == x % 2;
    hide Pow2;
    BitDown(y, i);
    BitDown(x, i);
    if i > 0 {
      LowBits(x / 2, n - 1, i - 1);
    }
  }

  lemma HalfRem(x: nat, p: nat)
    requires p > 0
    ensures x % (2 * p) == 2 * (x / 2 % p) + x % 2
  {
    var h, l := x / 2, x % 2;
    var q, r := h / p, h % p;
    assert (2 * p) * q == 2 * (p * q);
    RemIs(x, 2 * p, q, 2 * r + l);
  }

  lemma Pow2At16()
    ensures Pow2(16) == MAP_SIZE
  {
    assert Pow2(8) == 0x100;
    assert Pow2(12) == 0x1000;
  }

  /** A transition's bucket: each of its sixteen bits is the sum, modulo two, of that bit of the target and the
      next higher bit of the source. */
  lemma EdgeMeans(prev: u32, cur: u32, i: nat)
    requires i < 16
    ensures BitAt(Edge(prev, cur), i) == (BitAt(prev, i + 1) + BitAt(cur, i)) % 2
  {
    hide BitAt, Bits32, Pow2;
    Pow2At16();
    LowBits(Bits32(BitXor, prev / 2, cur), 16, i);
    BitsMean(BitXor, prev / 2, cur, i);
    BitDown(prev, i + 1);
  }

  /** A counter holds the number of hits up to 255, and 255 from then on. */
  lemma SaturateMeans(n: nat)
    ensures (n <= 255 ==> Saturate(n) == n) && (n >= 255 ==> Saturate(n) == 255)
  {
  }

  function Saturate(n: nat): u8 { if n < 255 then n else 255 }

  /** How often a bucket was hit by a list of transitions. */
  function Count(edges: seq<(u32, u32)>, bucket: nat): nat
  {
    if edges == [] then 0
    else
      var last := edges[|edges| - 1];
      Count(edges[..|edges| - 1], bucket) + if Edge(last.0, last.1) == bucket then 1 else 0
  }

  class CovBitmap {
    const hits: array<u8>
    /** The transitions recorded since the map was cleared. */
    ghost var edges: seq<(u32, u32)>

    ghost predicate Valid()
      reads this, hits
    {
      hits.Length == MAP_SIZE && forall i | 0 <= i < MAP_SIZE :: hits[i] == Saturate(Count(edges, i))
    }

    constructor ()
      ensures Valid() && edges == [] && fresh(hits)
    {
      hits := new u8[MAP_SIZE](_ => 0);
      edges := [];
    }

    method RecordEdge(prev: u32, cur: u32)
      requires Valid()
      modifies this, hits
      ensures Valid() && edges == old(edges) + [(prev, cur)]
    {
      hide Edge;
      var i := Edge(prev, cur);
      hits[i] := if hits[i] < 255 then hits[i] + 1 else 255;
      edges := edges + [(prev, cur)];
      assert edges[..|edges| - 1] == old(edges);
    }

    method Clear()
      requires Valid()
      modifies this, hits
      ensures Valid() && edges == []
    {
      forall i | 0 <= i < hits.Length {
        hits[i] := 0;
      }
      edges := [];
    }
  }

  class VirginMap {
    const classes: array<u8>

    ghost predicate Valid() { classes.Length == MAP_SIZE }

    ghost function View(): Hits
      requires Valid()
      reads classes
    {
      classes[..]
    }

    constructor ()
      ensures Valid() && fresh(classes) && forall i | 0 <= i < MAP_SIZE :: View()[i] == 0
    {
      classes := new u8[MAP_SIZE](_ => 0);
    }

    /** Fold a run into the map; tell whether any class advanced. */
    method HasNewBits(run: Hits) returns (found: bool)
      requires Valid()
      modifies classes
      ensures found == HasNew(old(View()), run) && View() == Join(old(View()), run)
    {
      found := false;
      ghost var was := View();
      for i := 0 to MAP_SIZE
        invariant forall j | 0 <= j < i :: classes[j] == Join(was, run)[j]
        invariant forall j | i <= j < MAP_SIZE :: classes[j] == was[j]
        invariant found <==> exists j | 0 <= j < i :: Classify(run[j]) > was[j]
      {
        var c := Classify(run[i]);
        if c > classes[i] {
          classes[i] := c;
          found := true;
        }
      }
      assert View() == Join(was, run);
    }
  }
}
