/** The mutation operators at work on a program in place (crates/fs-prog/src/mutate.rs, genr.rs). An
    `Oracle` stands for the random number generator and the tables it draws from. */
module Editor {
  import opened Words
  import opened Typed
  import opened Mutation
  import Scratch

  datatype Oracle = Oracle(pick: nat -> nat, flip: nat -> bool, seed: nat -> i64, scalar: nat -> ArgValue, desc: nat -> Desc)

  function Choose(o: Oracle, n: nat, len: nat): (i: nat)
    requires len > 0
    ensures i < len
  {
    o.pick(n) % len
  }

  /** One of the first `n` arguments, other than the excluded one, is bound to the resource. */
  ghost predicate BoundTo(args: seq<ArgValue>, exclude: Option<nat>, n: nat, e: PoolEntry)
    requires n <= |args|
  {
    exists x | 0 <= x < n :: Some(x) != exclude && args[x] == ResV(Produced(e.call, e.slot))
  }

  /** The anchors are the pool entries to which the first `n` arguments are bound. */
  ghost predicate AnchorsOf(pool: seq<PoolEntry>, args: seq<ArgValue>, exclude: Option<nat>, n: nat, anchors: seq<PoolEntry>)
    requires n <= |args|
  {
    && (forall e | e in anchors :: e in pool && BoundTo(args, exclude, n, e))
    && forall e | e in pool && BoundTo(args, exclude, n, e) :: Anchored(anchors, e)
  }

  ghost predicate Anchored(anchors: seq<PoolEntry>, e: PoolEntry)
  {
    exists a :: a in anchors && a.call == e.call && a.slot == e.slot
  }

  lemma BoundMore(args: seq<ArgValue>, exclude: Option<nat>, n: nat, e: PoolEntry)
    requires n < |args|
    ensures BoundTo(args, exclude, n + 1, e) <==>
      BoundTo(args, exclude, n, e) || (Some(n) != exclude && args[n] == ResV(Produced(e.call, e.slot)))
  {
  }

  lemma AddAnchor(pool: seq<PoolEntry>, args: seq<ArgValue>, exclude: Option<nat>, n: nat, anchors: seq<PoolEntry>, a: PoolEntry)
    requires n < |args| && AnchorsOf(pool, args, exclude, n, anchors)
    requires Some(n) != exclude && a in pool && args[n] == ResV(Produced(a.call, a.slot))
    ensures AnchorsOf(pool, args, exclude, n + 1, anchors + [a])
  {
    hide BoundTo, Anchored;
    var more := anchors + [a];
    forall e | e in pool ensures BoundTo(args, exclude, n + 1, e) <==> BoundTo(args, exclude, n, e) || (a.call == e.call && a.slot == e.slot) {
      BoundMore(args, exclude, n, e);
    }
    forall e | e in pool && BoundTo(args, exclude, n + 1, e) ensures Anchored(more, e) {
      AnchoredMore(anchors, a, e);
    }
    forall e | e in more ensures e in pool && BoundTo(args, exclude, n + 1, e) {
      assert e in anchors || e == a;
    }
  }

  lemma AnchoredMore(anchors: seq<PoolEntry>, a: PoolEntry, e: PoolEntry)
    ensures Anchored(anchors, e) || (a.call == e.call && a.slot == e.slot) ==> Anchored(anchors + [a], e)
  {
    var more := anchors + [a];
    if Anchored(anchors, e) {
      var b :| b in anchors && b.call == e.call && b.slot == e.slot;
      assert b in more;
    }
    assert a in more;
  }

  lemma NoAnchor(pool: seq<PoolEntry>, args: seq<ArgValue>, exclude: Option<nat>, n: nat, anchors: seq<PoolEntry>)
    requires n < |args| && AnchorsOf(pool, args, exclude, n, anchors)
    requires forall e | e in pool && Some(n) != exclude :: args[n] != ResV(Produced(e.call, e.slot))
    ensures AnchorsOf(pool, args, exclude, n + 1, anchors)
  {
    hide BoundTo, Anchored;
    forall e | e in pool ensures BoundTo(args, exclude, n + 1, e) <==> BoundTo(args, exclude, n, e) {
      BoundMore(args, exclude, n, e);
    }
  }

  /** Pool entries that this call's other arguments are bound to already. */
  method SameCallAnchors(pool: seq<PoolEntry>, args: seq<ArgValue>, exclude: Option<nat>) returns (anchors: seq<PoolEntry>)
    ensures forall e | e in anchors :: e in pool && exists j | 0 <= j < |args| ::
              Some(j) != exclude && args[j] == ResV(Produced(e.call, e.slot))
    ensures forall j, e | 0 <= j < |args| && Some(j) != exclude && e in pool && args[j] == ResV(Produced(e.call, e.slot)) ::
              exists a :: a in anchors && a.call == e.call && a.slot == e.slot
  {
    anchors := [];
    for j := 0 to |args|
      invariant AnchorsOf(pool, args, exclude, j, anchors)
    {
      hide AnchorsOf;
      ghost var found := false;
      if Some(j) != exclude && args[j].ResV? && args[j].ref.Produced? {
        for i := 0 to |pool|
          invariant !found && AnchorsOf(pool, args, exclude, j, anchors)
          invariant forall k | 0 <= k < i :: args[j] != ResV(Produced(pool[k].call, pool[k].slot))
        {
          if pool[i].call == args[j].ref.call && pool[i].slot == args[j].ref.slot {
            AddAnchor(pool, args, exclude, j, anchors, pool[i]);
            anchors := anchors + [pool[i]];
            found := true;
            break;
          }
        }
      }
      if !found {
        NoAnchor(pool, args, exclude, j, anchors);
      }
    }
    AnchorsAre(pool, args, exclude, anchors);
  }

  lemma AnchorsAre(pool: seq<PoolEntry>, args: seq<ArgValue>, exclude: Option<nat>, anchors: seq<PoolEntry>)
    requires AnchorsOf(pool, args, exclude, |args|, anchors)
    ensures forall e | e in anchors :: e in pool && exists j | 0 <= j < |args| ::
              Some(j) != exclude && args[j] == ResV(Produced(e.call, e.slot))
    ensures forall j, e | 0 <= j < |args| && Some(j) != exclude && e in pool && args[j] == ResV(Produced(e.call, e.slot)) ::
              exists a :: a in anchors && a.call == e.call && a.slot == e.slot
  {
    forall j, e | 0 <= j < |args| && Some(j) != exclude && e in pool && args[j] == ResV(Produced(e.call, e.slot))
      ensures exists a :: a in anchors && a.call == e.call && a.slot == e.slot
    {
      assert BoundTo(args, exclude, |args|, e);
      assert Anchored(anchors, e);
    }
  }

  /** `generate_args` against the first `n` calls: the drawn call is valid at position `n` and its lengths
      measure the arguments they name. */
  method GenerateArgs(parents: Parents, o: Oracle, desc: Desc, p: Prog, n: nat) returns (c: Call)
    requires n <= |p|
    ensures c.desc == desc && CallOk(parents, p, n, c) && Scratch.Lengths(desc.args, c.args, |c.args|)
  {
    var pool := BuildPool(p, n);
    var args: seq<ArgValue> := [];
    for j := 0 to |desc.args|
      invariant |args| == j
      invariant forall x | 0 <= x < j && desc.args[x].Res? :: RefOk(parents, p, n, desc.args[x].kind, args[x])
      invariant Scratch.Lengths(desc.args, args, j)
    {
      if desc.args[j].Len? {
        var of := desc.args[j].of;
        args := args + [Imm(if of < j then Scratch.LenOf(desc.args[of], args[of]) else 0)];
      } else if desc.args[j].Res? {
        var anchors := SameCallAnchors(pool, args, None);
        var r := PickResBiased(parents, desc.args[j].kind, pool, anchors, o.flip(j), o.pick(j), o.flip(j + 64), o.seed(j));
        PickedOk(parents, p, n, desc.args[j].kind, pool, r);
        args := args + [ResV(r)];
      } else {
        args := args + [o.scalar(j)];
      }
    }
    c := Call(desc, args);
  }

  datatype Op = InsertOp | RemoveOp | ArgOp | WireOp | SpliceOp | FlagOp | ResizeOp | IntOp | DictOp

  /** Which arguments an operator may pick. */
  predicate Eligible(op: Op, ty: ArgType, v: ArgValue)
  {
    match op
    case WireOp => ty.Res?
    case SpliceOp => ty.Res?
    case FlagOp => ty.Flags?
    case ResizeOp => ty.PtrT? && ty.inner.Buffer? && v.PtrV? && v.pointee.Bytes?
    case IntOp => ty.Int?
    case DictOp => ty.Int? || ty.Flags? || ty.Const?
    case _ => false
  }

  class Program {
    var calls: Prog

    constructor (p: Prog)
      ensures calls == p
    {
      calls := p;
    }

    /** Renumber every call's references in place. */
    method RenumberAll(f: nat -> (nat, nat) -> Move)
      modifies this
      ensures |calls| == |old(calls)| && forall i | 0 <= i < |calls| :: calls[i] == Renumber(old(calls)[i], f(i))
    {
      for i := 0 to |calls|
        invariant |calls| == |old(calls)|
        invariant forall x | 0 <= x < i :: calls[x] == Renumber(old(calls)[x], f(x))
        invariant forall x | i <= x < |calls| :: calls[x] == old(calls)[x]
      {
        calls := calls[i := Renumber(calls[i], f(i))];
      }
    }

    method InsertCall(at: nat, c: Call)
      requires at <= |calls|
      modifies this
      ensures calls == Insert(old(calls), at, c)
    {
      RenumberAll((i: nat) => InsertMove(at));
      MakeRoom(old(calls), at, c, calls);
      calls := calls[..at] + [c] + calls[at..];
    }

    static lemma MakeRoom(p: Prog, at: nat, c: Call, moved: Prog)
      requires at <= |p| == |moved| && forall i | 0 <= i < |p| :: moved[i] == Renumber(p[i], InsertMove(at))
      ensures moved[..at] + [c] + moved[at..] == Insert(p, at, c)
    {
      hide Renumber, InsertMove;
      var a, b := moved[..at] + [c] + moved[at..], Insert(p, at, c);
      forall i | 0 <= i < |b| ensures a[i] == b[i] {
      }
    }

    method RemoveCall(at: nat, o: Oracle)
      requires at < |calls|
      modifies this
      ensures calls == Remove(old(calls), at, (i: nat) => (j: nat) => o.seed(8 * i + j))
    {
      calls := calls[..at] + calls[at + 1..];
      RenumberAll((i: nat) => RemoveMove(at, (j: nat) => o.seed(8 * i + j)));
      assert forall i | 0 <= i < |calls| :: calls[i] == Remove(old(calls), at, (i: nat) => (j: nat) => o.seed(8 * i + j))[i];
    }

    /** Every argument the operator may pick. */
    method Candidates(op: Op) returns (cs: seq<(nat, nat)>)
      requires forall i | 0 <= i < |calls| :: |calls[i].args| == |calls[i].desc.args|
      ensures forall c | c in cs ::
                c.0 < |calls| && c.1 < |calls[c.0].args| && Eligible(op, calls[c.0].desc.args[c.1], calls[c.0].args[c.1])
      ensures forall i, j | 0 <= i < |calls| && 0 <= j < |calls[i].args| && Eligible(op, calls[i].desc.args[j], calls[i].args[j]) ::
                (i, j) in cs
    {
      cs := [];
      for i := 0 to |calls|
        invariant forall x, j | 0 <= x < i && 0 <= j < |calls[x].args| && Eligible(op, calls[x].desc.args[j], calls[x].args[j]) ::
                    (x, j) in cs
        invariant forall c | c in cs ::
                    c.0 < |calls| && c.1 < |calls[c.0].args| && Eligible(op, calls[c.0].desc.args[c.1], calls[c.0].args[c.1])
      {
        for j := 0 to |calls[i].args|
          invariant forall x, k | 0 <= x < i && 0 <= k < |calls[x].args| && Eligible(op, calls[x].desc.args[k], calls[x].args[k]) ::
                      (x, k) in cs
          invariant forall k | 0 <= k < j && Eligible(op, calls[i].desc.args[k], calls[i].args[k]) :: (i, k) in cs
          invariant forall c | c in cs ::
                      c.0 < |calls| && c.1 < |calls[c.0].args| && Eligible(op, calls[c.0].desc.args[c.1], calls[c.0].args[c.1])
        {
          if Eligible(op, calls[i].desc.args[j], calls[i].args[j]) {
            cs := cs + [(i, j)];
          }
        }
      }
    }

    /** Point argument `j` of call `i` at a compatible resource produced before it, if there is one. */
    method Rewire(parents: Parents, o: Oracle, i: nat, j: nat) returns (done: bool, ghost e: Edit)
      requires WellFormed(parents, calls) && i < |calls| && j < |calls[i].args| && calls[i].desc.args[j].Res?
      modifies this
      ensures WellFormed(parents, calls) && Edited(old(calls), e, calls)
      ensures done ==> e.SetAt? && e.i == i && e.j == j && e.v.ResV? && e.v.ref.Produced?
      ensures !done ==> e.NoEdit? && forall c: nat, slot: nat | c < i ::
        var k := old(calls)[c].desc.produces.KindAt(slot); k.None? || !Compat(parents, old(calls)[i].desc.args[j].kind, k.value)
    {
      hide Compat;
      e := NoEdit;
      var pool := BuildPool(calls, i);
      var compatible := Filter(parents, calls[i].desc.args[j].kind, pool);
      done := compatible != [];
      if done {
        var x := compatible[Choose(o, 1, |compatible|)];
        assert x in compatible && x in pool;
        var r := Produced(x.call, x.slot);
        PickedOk(parents, calls, i, calls[i].desc.args[j].kind, pool, r);
        SetKeeps(parents, calls, i, j, ResV(r));
        calls, e := SetArg(calls, i, j, ResV(r)), SetAt(i, j, ResV(r));
      } else {
        forall c: nat, slot: nat | c < i && calls[c].desc.produces.KindAt(slot).Some?
          ensures !Compat(parents, calls[i].desc.args[j].kind, calls[c].desc.produces.KindAt(slot).value)
        {
          assert PoolEntry(c, slot, calls[c].desc.produces.KindAt(slot).value) in pool;
        }
      }
    }

    method WireProducer(parents: Parents, o: Oracle) returns (ghost e: Edit)
      requires WellFormed(parents, calls) && |calls| <= MAX_CALLS
      modifies this
      ensures WellFormed(parents, calls) && |old(calls)| <= |calls| <= MAX_CALLS
      ensures Edited(old(calls), e, calls) && (e.NoEdit? || e.SetAt? || e.WireIn?)
      ensures e.SetAt? || e.WireIn? ==> e.i < |old(calls)| && e.j < |old(calls)[e.i].desc.args| && old(calls)[e.i].desc.args[e.j].Res?
    {
      hide Insert, Renumber;
      e := NoEdit;
      AllCallsOk(parents, calls);
      var cs := Candidates(WireOp);
      if cs == [] { return; }
      var at := cs[Choose(o, 0, |cs|)];
      assert at in cs;
      var (i, j) := at;
      var done;
      done, e := Rewire(parents, o, i, j);
      if done || |calls| >= MAX_CALLS { return; }
      var desc, kind := o.desc(0), calls[i].desc.args[j].kind;
      var slot, found := FirstSlot(parents, desc.produces, kind);
      if !found { return; }
      var pos := Choose(o, 2, i + 1);
      var c := GenerateArgs(parents, o, desc, calls, pos);
      ghost var p := calls;
      InsertCall(pos, c);
      WireKeeps(parents, p, i, j, pos, c, slot);
      calls, e := SetArg(calls, i + 1, j, ResV(Produced(pos, slot))), WireIn(pos, c, i, j, slot);
      MadeWire(p, e, calls);
    }

    method FirstSlot(parents: Parents, d: Produces, kind: Kind) returns (slot: nat, found: bool)
      ensures found ==> d.KindAt(slot).Some? && Compat(parents, kind, d.KindAt(slot).value)
      ensures forall s: nat | s < (if found then slot else SlotCount(d)) && d.KindAt(s).Some? ::
        !Compat(parents, kind, d.KindAt(s).value)
    {
      slot, found := 0, false;
      for s := 0 to SlotCount(d)
        invariant forall x: nat | x < s && d.KindAt(x).Some? :: !Compat(parents, kind, d.KindAt(x).value)
      {
        if d.KindAt(s).Some? && Compat(parents, kind, d.KindAt(s).value) {
          return s, true;
        }
      }
    }

    method SpliceResourceUse(parents: Parents, o: Oracle) returns (ghost e: Edit)
      requires WellFormed(parents, calls)
      modifies this
      ensures WellFormed(parents, calls) && |calls| == |old(calls)|
      ensures Edited(old(calls), e, calls) && (e.NoEdit? || (e.SetAt? && e.v.ResV? && e.v.ref.Produced?))
    {
      e := NoEdit;
      AllCallsOk(parents, calls);
      var cs := Candidates(SpliceOp);
      if cs == [] { return; }
      var at := cs[Choose(o, 0, |cs|)];
      assert at in cs;
      var done;
      done, e := Rewire(parents, o, at.0, at.1);
    }

    /** The operators that change the value of an argument that is no resource. */
    method ChangeScalar(parents: Parents, op: Op, o: Oracle) returns (ghost e: Edit)
      requires WellFormed(parents, calls) && (op.FlagOp? || op.ResizeOp? || op.IntOp? || op.DictOp?)
      modifies this
      ensures WellFormed(parents, calls) && |calls| == |old(calls)|
      ensures Edited(old(calls), e, calls) && ScalarEdit(old(calls), op, e)
    {
      e := NoEdit;
      AllCallsOk(parents, calls);
      var cs := Candidates(op);
      if cs == [] { return; }
      var at := cs[Choose(o, 0, |cs|)];
      assert at in cs;
      SetKeeps(parents, calls, at.0, at.1, o.scalar(0));
      calls, e := SetArg(calls, at.0, at.1, o.scalar(0)), SetAt(at.0, at.1, o.scalar(0));
    }

    /** Re-roll one argument of one call, a resource with the cross-reference bias. */
    method MutateRandomArg(parents: Parents, o: Oracle) returns (ghost e: Edit)
      requires WellFormed(parents, calls)
      modifies this
      ensures WellFormed(parents, calls) && |calls| == |old(calls)|
      ensures Edited(old(calls), e, calls) && (e.NoEdit? || e.SetAt?)
      ensures e.NoEdit? ==> forall i | 0 <= i < |old(calls)| :: old(calls)[i].args == []
    {
      e := NoEdit;
      AllCallsOk(parents, calls);
      var cs: seq<nat> := [];
      for i := 0 to |calls|
        invariant forall x | x in cs :: x < |calls| && calls[x].args != []
        invariant forall x | 0 <= x < i && calls[x].args != [] :: x in cs
      {
        if calls[i].args != [] { cs := cs + [i]; }
      }
      if cs == [] { return; }
      var i := cs[Choose(o, 0, |cs|)];
      assert i in cs;
      var j := Choose(o, 1, |calls[i].args|);
      var ty := calls[i].desc.args[j];
      var v := o.scalar(0);
      if ty.Res? {
        var pool := BuildPool(calls, i);
        var anchors := SameCallAnchors(pool, calls[i].args, Some(j));
        var r := PickResBiased(parents, ty.kind, pool, anchors, o.flip(0), o.pick(2), o.flip(1), o.seed(0));
        PickedOk(parents, calls, i, ty.kind, pool, r);
        v := ResV(r);
      }
      SetKeeps(parents, calls, i, j, v);
      calls, e := SetArg(calls, i, j, v), SetAt(i, j, v);
    }

    /** `mutate` of a non-empty program: one edit, after which it is well-formed, non-empty and within
        bounds, whatever is drawn. */
    method Mutate(parents: Parents, o: Oracle, op: Op) returns (ghost e: Edit)
      requires WellFormed(parents, calls) && 1 <= |calls| <= MAX_CALLS
      modifies this
      ensures WellFormed(parents, calls) && 1 <= |calls| <= MAX_CALLS
      ensures Edited(old(calls), e, calls) && NamesBut(old(calls), e, calls)
      ensures op.InsertOp? && |old(calls)| < MAX_CALLS ==>
        e.InsertAt? && |e.c.args| == |e.c.desc.args| && Scratch.Lengths(e.c.desc.args, e.c.args, |e.c.args|)
      ensures op.RemoveOp? && |old(calls)| > 1 ==> e.RemoveAt?
    {
      hide Edited, NamesBut;
      ghost var p := calls;
      match op {
        case InsertOp =>
          if |calls| < MAX_CALLS {
            var at := Choose(o, 0, |calls| + 1);
            var c := GenerateArgs(parents, o, o.desc(0), calls, at);
            InsertKeeps(parents, calls, at, c);
            InsertCall(at, c);
            e := InsertAt(at, c);
            Made(p, e, calls);
          } else {
            e := ChangeScalar(parents, DictOp, o);
          }
        case RemoveOp =>
          if |calls| > 1 {
            var at := Choose(o, 0, |calls|);
            RemoveKeeps(parents, calls, at, (i: nat) => (j: nat) => o.seed(8 * i + j));
            RemoveCall(at, o);
            e := RemoveAt(at, (i: nat) => (j: nat) => o.seed(8 * i + j));
            Made(p, e, calls);
          } else {
            e := ChangeScalar(parents, DictOp, o);
          }
        case ArgOp => e := MutateRandomArg(parents, o);
        case WireOp => e := WireProducer(parents, o);
        case SpliceOp => e := SpliceResourceUse(parents, o);
        case _ => e := ChangeScalar(parents, op, o);
      }
      EditNames(p, e, calls);
    }
  }

  /** Which operator may change what: resources by wiring and splicing, flags, integers, buffers by their length,
      and any scalar from the dictionary. */
  lemma EligibleMeans(op: Op, ty: ArgType, v: ArgValue)
    ensures Eligible(op, ty, v) ==>
      match ty
      case Res(_) => op == WireOp || op == SpliceOp
      case Flags => op == FlagOp || op == DictOp
      case Int(_) => op == IntOp || op == DictOp
      case Const(_) => op == DictOp
      case PtrT(inner, _) => op == ResizeOp && inner.Buffer? && v.PtrV? && v.pointee.Bytes?
      case _ => false
    ensures ty.Res? ==> Eligible(WireOp, ty, v) && Eligible(SpliceOp, ty, v)
    ensures ty.Flags? ==> Eligible(FlagOp, ty, v) && Eligible(DictOp, ty, v)
    ensures ty.Int? ==> Eligible(IntOp, ty, v) && Eligible(DictOp, ty, v)
    ensures ty.Const? ==> Eligible(DictOp, ty, v)
    ensures ty.PtrT? && ty.inner.Buffer? && v.PtrV? && v.pointee.Bytes? ==> Eligible(ResizeOp, ty, v)
  {
  }

  /** A scalar operator changes an argument it may pick, unless there is none. */
  ghost predicate ScalarEdit(p: Prog, op: Op, e: Edit)
  {
    if e.NoEdit? then
      forall i, j | 0 <= i < |p| && 0 <= j < |p[i].args| && j < |p[i].desc.args| :: !Eligible(op, p[i].desc.args[j], p[i].args[j])
    else
      e.SetAt? && e.i < |p| && e.j < |p[e.i].args| && e.j < |p[e.i].desc.args| &&
      Eligible(op, p[e.i].desc.args[e.j], p[e.i].args[e.j])
  }

  lemma MadeWire(p: Prog, e: Edit, q: Prog)
    requires e.WireIn? && e.at <= e.i < |p| && e.j < |p[e.i].args|
    requires var mid := Insert(p, e.at, e.c); e.j < |mid[e.i + 1].args| && q == SetArg(mid, e.i + 1, e.j, ResV(Produced(e.at, e.slot)))
    ensures Edited(p, e, q)
  {
    hide Insert, Renumber, SetArg;
    MovedArity(p, e.at, e.c, e.i);
  }

  lemma MovedArity(p: Prog, at: nat, c: Call, i: nat)
    requires at <= i < |p|
    ensures |Insert(p, at, c)| == |p| + 1 && |Insert(p, at, c)[i + 1].args| == |p[i].args|
  {
    hide Renumber;
    assert Insert(p, at, c)[Bump(at, i)] == Renumber(p[i], InsertMove(at));
  }

  lemma Made(p: Prog, e: Edit, q: Prog)
    requires e.InsertAt? ==> e.at <= |p| && q == Insert(p, e.at, e.c)
    requires e.RemoveAt? ==> e.at < |p| && q == Remove(p, e.at, e.seeds)
    requires e.InsertAt? || e.RemoveAt?
    ensures Edited(p, e, q)
  {
  }

  lemma AllCallsOk(parents: Parents, p: Prog)
    requires WellFormed(parents, p)
    ensures forall i | 0 <= i < |p| :: |p[i].args| == |p[i].desc.args|
  {
    forall i | 0 <= i < |p| ensures |p[i].args| == |p[i].desc.args| {
      assert CallOk(parents, p, i, p[i]);
    }
  }

  /** `prepend_fail_inject`: the armed write names the preamble's own open. */
  method PrependFailInject(parents: Parents, o: Oracle, o2: Oracle, open_: Desc, write: Desc, p: Prog) returns (q: Prog)
    requires WellFormed(parents, p) && write.args != [] && write.args[0].Res? && open_.produces.KindAt(0).Some?
    requires Compat(parents, write.args[0].kind, open_.produces.KindAt(0).value)
    ensures WellFormed(parents, q) && 2 <= |q| <= MAX_CALLS
    ensures q[0].desc == open_ && q[1].desc == write && |q[1].args| > 0 && q[1].args[0] == ResV(Produced(0, 0))
    ensures Pushed(p, q)
  {
    var a := GenerateArgs(parents, o, open_, [], 0);
    var b := GenerateArgs(parents, o2, write, [a], 1);
    var c := Call(write, b.args[0 := ResV(Produced(0, 0))]);
    forall j | 0 <= j < |c.args| && write.args[j].Res? ensures RefOk(parents, [a], 1, write.args[j].kind, c.args[j]) {
      assert j > 0 ==> RefOk(parents, [a], 1, write.args[j].kind, b.args[j]);
    }
    PrependKeeps(parents, p, a, c);
    q := Prepend(p, a, c);
  }
}
