/** Which resources satisfy which (crates/fs-prog/src/resource.rs): a kind serves for itself and for every kind
    above it, and what a call produces is what its slots say. */
module Kinds {
  import opened Words
  import opened Typed

  /** The kind `n` steps up from `k`. */
  function Above(parents: Parents, k: Kind, n: nat): Option<Kind>
  {
    if n == 0 then Some(k)
    else
      var below := Above(parents, k, n - 1);
      if below.None? then None else ParentOf(parents, below.value)
  }

  lemma {:induction false} AboveFrom(parents: Parents, k: Kind, n: nat)
    requires n > 0
    ensures Above(parents, k, n) == if ParentOf(parents, k).None? then None else Above(parents, ParentOf(parents, k).value, n - 1)
    decreases n
  {
    hide ParentOf;
    if n > 1 {
      AboveFrom(parents, k, n - 1);
    }
  }

  /** A value of kind `have` serves where `want` is wanted iff `want` is some number of steps up from `have`. */
  lemma {:induction false} CompatIff(parents: Parents, want: Kind, have: Kind)
    ensures Compat(parents, want, have) <==> exists n: nat :: Above(parents, have, n) == Some(want)
    decreases have
  {
    hide Above;
    AboveNone(parents, have);
    var up := ParentOf(parents, have);
    if up.Some? {
      CompatIff(parents, want, up.value);
    }
    if Compat(parents, want, have) && want != have {
      var n: nat :| Above(parents, up.value, n) == Some(want);
      AboveFrom(parents, have, n + 1);
      assert Above(parents, have, n + 1) == Some(want);
    }
    if n: nat :| Above(parents, have, n) == Some(want) {
      if n > 0 {
        AboveFrom(parents, have, n);
        assert Above(parents, up.value, n - 1) == Some(want);
      }
    }
  }

  lemma AboveNone(parents: Parents, k: Kind)
    ensures Above(parents, k, 0) == Some(k)
  {
  }

  /** It never serves the other way: a kind does not serve for one properly below it. */
  lemma {:induction false} OneWay(parents: Parents, want: Kind, have: Kind)
    requires Compat(parents, want, have)
    ensures want <= have && (want != have ==> !Compat(parents, have, want))
    decreases have
  {
    if want != have {
      OneWay(parents, want, ParentOf(parents, have).value);
      if Compat(parents, have, want) {
        Rising(parents, have, want);
      }
    }
  }

  lemma {:induction false} Rising(parents: Parents, want: Kind, have: Kind)
    requires Compat(parents, want, have)
    ensures want <= have
    decreases have
  {
    if want != have {
      Rising(parents, want, ParentOf(parents, have).value);
    }
  }

  /** A returned resource is slot 0 and no other; an array of them is its slots from 0 up to its length. */
  lemma SlotsMean(slot: nat, arg: nat, k: Kind, n: nat)
    ensures NoRes.KindAt(slot).None?
    ensures Ret(k).KindAt(slot) == if slot == 0 then Some(k) else None
    ensures OutArray(arg, k, n).KindAt(slot) == if slot < n then Some(k) else None
  {
  }
}
