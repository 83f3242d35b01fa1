/** What the pointers a lowered program passes lead to: in the final scratch image, the values they were made
    from (crates/fs-prog/src/lower.rs). And which programs are lowerable. */
module Pointees {
  import opened Words
  import opened Typed
  import opened Scratch
  import opened ScratchProof
  import opened Lowering
  import opened Agent

  // ----- the image only grows -----

  /** `b` is `a` further on: nothing written is changed, and an overflow stays one. */
  ghost predicate Grown(a: Writer, b: Writer) { a.bytes <= b.bytes && a.cap == b.cap && (b.ok ==> a.ok) }

  lemma WriteGrows(w: Writer, data: seq<u8>, align: nat)
    ensures Grown(w, WriteAt(w, data, align).0)
  {
  }

  lemma {:induction false} BuildGrows(w: Writer, base: u32, ty: ArgType, val: ArgValue)
    ensures Grown(w, Build(w, base, ty, val).0)
    decreases val, 1, 0
  {
    hide WriteAt, Le, W32;
    match val {
      case PtrV(pointee) =>
        if ty.PtrT? {
          var (w1, data) := Build(w, base, ty.inner, pointee);
          BuildGrows(w, base, ty.inner, pointee);
          WriteGrows(w1, data, AlignOf(ty.inner, pointee));
        }
      case StructV(vals) =>
        if ty.StructT? {
          FieldsGrow(w, base, ty.fields, val, 0, Zeros(StructSize(ty.fields, val)));
        }
      case _ =>
    }
  }

  lemma {:induction false} FieldsGrow(w: Writer, base: u32, fields: seq<ArgType>, val: ArgValue, k: nat, buf: seq<u8>)
    requires val.StructV? && k <= Both(fields, val)
    ensures Grown(w, BuildFields(w, base, fields, val, k, buf).0)
    decreases val, 0, Both(fields, val) - k
  {
    hide Build, Overlay;
    if k < Both(fields, val) {
      var (w1, data) := Build(w, base, fields[k], val.vals[k]);
      BuildGrows(w, base, fields[k], val.vals[k]);
      FieldsGrow(w1, base, fields, val, k + 1, Overlay(buf, FieldAt(fields, val, k), data));
    }
  }

  lemma SerializeGrows(w: Writer, base: u32, ty: ArgType, val: ArgValue)
    ensures Grown(w, Serialize(w, base, ty, val).0)
  {
    hide Build, WriteAt;
    var (w1, data) := Build(w, base, ty, val);
    BuildGrows(w, base, ty, val);
    WriteGrows(w1, data, AlignOf(ty, val));
  }

  lemma {:induction false} ArgsGrow(p: Prog, base: u32, i: nat, st: State, j: nat, k: nat)
    requires i < |p| && j <= k <= Arity(p[i]) && |st.out| == |p|
    ensures Grown(LowerArgs(p, base, i, st, j).0.w, LowerArgs(p, base, i, st, k).0.w)
    decreases k
  {
    hide Serialize, W32;
    if j < k {
      ArgsGrow(p, base, i, st, j, k - 1);
      var s1 := LowerArgs(p, base, i, st, k - 1).0;
      if p[i].args[k - 1].PtrV? && p[i].desc.args[k - 1].PtrT? {
        SerializeGrows(s1.w, base, p[i].desc.args[k - 1].inner, p[i].args[k - 1].pointee);
      }
    }
  }

  lemma {:induction false} CallsGrow(p: Prog, base: u32, cap: nat, m: nat, n: nat)
    requires SmallCalls(p) && m <= n <= |p|
    ensures Grown(LowerCalls(p, base, cap, m).0.w, LowerCalls(p, base, cap, n).0.w)
    decreases n
  {
    hide LowerArgs;
    if m < n {
      CallsGrow(p, base, cap, m, n - 1);
      var st := LowerCalls(p, base, cap, n - 1).0;
      NoArgs(p, base, n - 1, st);
      ArgsGrow(p, base, n - 1, st, 0, Arity(p[n - 1]));
    }
  }

  lemma NoArgs(p: Prog, base: u32, i: nat, st: State)
    requires i < |p| && |st.out| == |p|
    ensures LowerArgs(p, base, i, st, 0) == (st, [])
  {
  }

  lemma {:induction false} CapKept(p: Prog, base: u32, cap: nat, i: nat, j: nat)
    requires SmallCalls(p) && i < |p| && j <= Arity(p[i])
    ensures Before(p, base, cap, i, j).w.cap == cap
  {
    hide LowerArgs, LowerCalls;
    CallsGrow(p, base, cap, 0, i);
    FirstWriter(p, base, cap);
    var st := LowerCalls(p, base, cap, i).0;
    NoArgs(p, base, i, st);
    ArgsGrow(p, base, i, st, 0, j);
  }

  lemma FirstWriter(p: Prog, base: u32, cap: nat)
    requires SmallCalls(p)
    ensures LowerCalls(p, base, cap, 0).0.w == Writer([], cap, true)
  {
  }

  // ----- pointer arguments -----

  /** The scratch region has not overflowed once argument `j` of call `i` is lowered. */
  predicate Fitted(p: Prog, base: u32, cap: nat, i: nat, j: nat)
    requires SmallCalls(p) && i < |p| && j < Arity(p[i])
  {
    Before(p, base, cap, i, j + 1).w.ok
  }

  lemma AfterArg(p: Prog, base: u32, cap: nat, i: nat, j: nat)
    requires SmallCalls(p) && i < |p| && j < Arity(p[i]) && IsPointer(p[i], j)
    ensures Before(p, base, cap, i, j + 1).w ==
      Serialize(Before(p, base, cap, i, j).w, base, p[i].desc.args[j].inner, p[i].args[j].pointee).0
  {
    hide Serialize, LowerCalls;
  }

  lemma UpToEnd(p: Prog, base: u32, cap: nat, i: nat, j: nat)
    requires SmallCalls(p) && i < |p| && j <= Arity(p[i])
    ensures Before(p, base, cap, i, j).w.bytes <= Lower(p, base, cap).scratch
  {
    hide LowerArgs, LowerCalls;
    var st := LowerCalls(p, base, cap, i).0;
    ArgsGrow(p, base, i, st, j, Arity(p[i]));
    WholeCall(p, base, cap, i);
    CallsGrow(p, base, cap, i + 1, |p|);
  }

  lemma WholeCall(p: Prog, base: u32, cap: nat, i: nat)
    requires SmallCalls(p) && i < |p|
    ensures LowerCalls(p, base, cap, i + 1).0 == LowerArgs(p, base, i, LowerCalls(p, base, cap, i).0, Arity(p[i])).0
  {
    hide LowerArgs;
  }

  /** Every pointer the program passes leads, in the final image and whatever was written after it, to the
      value it was made from, exactly when that value's inner lengths are zero. */
  lemma PointerReads(p: Prog, base: u32, cap: nat, i: nat, j: nat)
    requires SmallCalls(p) && i < |p| && j < Arity(p[i]) && IsPointer(p[i], j) && cap <= TWO32 && Fitted(p, base, cap, i, j)
    requires TypeCorrect(p[i].desc.args[j].inner, p[i].args[j].pointee) && !p[i].desc.args[j].inner.Len?
    ensures var img, off := Lower(p, base, cap).scratch, Place(p, base, cap, i, j);
      var ty, val := p[i].desc.args[j].inner, p[i].args[j].pointee;
      && off % AlignOf(ty, val) == 0 && off + SizeOf(ty, val) <= |img|
      && (Reads(img, off, img, base, ty, val) <==> LensZero(ty, val))
  {
    hide Serialize, Before, Lower, TypeCorrect, Reads, LensZero, SizeOf, AlignOf;
    var ty, val, w := p[i].desc.args[j].inner, p[i].args[j].pointee, Before(p, base, cap, i, j).w;
    CapKept(p, base, cap, i, j);
    AfterArg(p, base, cap, i, j);
    UpToEnd(p, base, cap, i, j + 1);
    SerializeReads(w, base, ty, val, Lower(p, base, cap).scratch);
  }

  /** A generated length beside a pointer: the kernel is passed exactly the number of bytes that the pointee has
      in the final image, at the address it is passed; for a buffer, those bytes are the buffer. */
  lemma LengthMeasures<S>(p: Prog, base: u32, cap: nat, i: nat, j: nat, l: nat, k: Kernel<S>, s: S, rets: seq<u32>)
    requires SmallCalls(p) && i < |p| && j < l < Arity(p[i]) && IsPointer(p[i], j) && cap < TWO32 && Fitted(p, base, cap, i, j)
    requires TypeCorrect(p[i].desc.args[j].inner, p[i].args[j].pointee) && !p[i].desc.args[j].inner.Len?
    requires p[i].desc.args[l] == Len(j) && Lengths(p[i].desc.args, p[i].args, Arity(p[i]))
    ensures var img, off := Lower(p, base, cap).scratch, Place(p, base, cap, i, j);
      var ty, val, n := p[i].desc.args[j].inner, p[i].args[j].pointee, Meaning(p, base, cap, k, s, rets, i, l);
      && Meaning(p, base, cap, k, s, rets, i, j) == (base + off) % TWO32
      && n == SizeOf(ty, val) && off + n <= |img| && (Reads(img, off, img, base, ty, val) <==> LensZero(ty, val))
      && (val.Bytes? ==> img[off..off + n] == val.b)
  {
    hide Before, Lower, Reads, LensZero, SizeOf, TypeCorrect, AlignOf, Serialize, Meaning, Place, Lengths;
    PointerReads(p, base, cap, i, j);
    var ty, val := p[i].desc.args[j].inner, p[i].args[j].pointee;
    PlaceWithin(p, base, cap, i, j);
    Passed(p, base, cap, i, j, l, k, s, rets);
    if val.Bytes? {
      BytesRead(Lower(p, base, cap).scratch, Place(p, base, cap, i, j), base, ty, val);
    }
  }

  lemma PlaceWithin(p: Prog, base: u32, cap: nat, i: nat, j: nat)
    requires SmallCalls(p) && i < |p| && j < Arity(p[i]) && IsPointer(p[i], j) && cap < TWO32 && Fitted(p, base, cap, i, j)
    requires TypeCorrect(p[i].desc.args[j].inner, p[i].args[j].pointee) && !p[i].desc.args[j].inner.Len?
    ensures Place(p, base, cap, i, j) + SizeOf(p[i].desc.args[j].inner, p[i].args[j].pointee) <= cap
  {
    hide Before, Reads, LensZero, SizeOf, TypeCorrect, AlignOf, Serialize;
    var ty, val, w := p[i].desc.args[j].inner, p[i].args[j].pointee, Before(p, base, cap, i, j).w;
    CapKept(p, base, cap, i, j);
    AfterArg(p, base, cap, i, j);
    SerializeReads(w, base, ty, val, Serialize(w, base, ty, val).0.bytes);
    WithinCap(w, base, ty, val);
  }

  /** What is passed for a pointer and for the length beside it. */
  lemma Passed<S>(p: Prog, base: u32, cap: nat, i: nat, j: nat, l: nat, k: Kernel<S>, s: S, rets: seq<u32>)
    requires SmallCalls(p) && i < |p| && j < l < Arity(p[i]) && IsPointer(p[i], j)
    requires p[i].desc.args[l] == Len(j) && Lengths(p[i].desc.args, p[i].args, Arity(p[i]))
    ensures Meaning(p, base, cap, k, s, rets, i, j) == (base + Place(p, base, cap, i, j)) % TWO32
    ensures Meaning(p, base, cap, k, s, rets, i, l) == SizeOf(p[i].desc.args[j].inner, p[i].args[j].pointee) % TWO32
  {
    hide Place, SizeOf;
    assert p[i].args[l] == Imm(W32(SizeOf(p[i].desc.args[j].inner, p[i].args[j].pointee)));
  }

  lemma WithinCap(w: Writer, base: u32, ty: ArgType, val: ArgValue)
    requires Serialize(w, base, ty, val).0.ok
    ensures |Serialize(w, base, ty, val).0.bytes| <= w.cap
  {
    hide Build;
    BuildGrows(w, base, ty, val);
  }

  lemma BytesRead(img: seq<u8>, off: nat, base: u32, ty: ArgType, val: ArgValue)
    requires TypeCorrect(ty, val) && val.Bytes? && off + SizeOf(ty, val) <= |img|
    ensures LensZero(ty, val) && SizeOf(ty, val) == |val.b|
    ensures Reads(img, off, img, base, ty, val) ==> img[off..off + |val.b|] == val.b
  {
  }

  /** Two pointers of a program never share a byte: the later one starts past the end of the earlier. */
  lemma PointersApart(p: Prog, base: u32, cap: nat, i: nat, j: nat, i': nat, j': nat)
    requires SmallCalls(p) && cap <= TWO32 && i < |p| && j < Arity(p[i]) && IsPointer(p[i], j)
    requires i' < |p| && j' < Arity(p[i']) && IsPointer(p[i'], j') && (i < i' || (i == i' && j < j'))
    requires Fitted(p, base, cap, i, j) && Fitted(p, base, cap, i', j')
    requires TypeCorrect(p[i].desc.args[j].inner, p[i].args[j].pointee) && !p[i].desc.args[j].inner.Len?
    requires TypeCorrect(p[i'].desc.args[j'].inner, p[i'].args[j'].pointee) && !p[i'].desc.args[j'].inner.Len?
    ensures Place(p, base, cap, i, j) + SizeOf(p[i].desc.args[j].inner, p[i].args[j].pointee) <= Place(p, base, cap, i', j')
  {
    hide Serialize, Before, Lower, TypeCorrect, Reads, LensZero, SizeOf, AlignOf;
    Ends(p, base, cap, i, j);
    Ends(p, base, cap, i', j');
    BeforeGrows(p, base, cap, i, j + 1, i', j');
  }

  lemma Ends(p: Prog, base: u32, cap: nat, i: nat, j: nat)
    requires SmallCalls(p) && i < |p| && j < Arity(p[i]) && IsPointer(p[i], j) && cap <= TWO32 && Fitted(p, base, cap, i, j)
    requires TypeCorrect(p[i].desc.args[j].inner, p[i].args[j].pointee) && !p[i].desc.args[j].inner.Len?
    ensures Place(p, base, cap, i, j) + SizeOf(p[i].desc.args[j].inner, p[i].args[j].pointee) == |Before(p, base, cap, i, j + 1).w.bytes|
    ensures |Before(p, base, cap, i, j).w.bytes| <= Place(p, base, cap, i, j)
  {
    hide Serialize, Before, TypeCorrect, Reads, LensZero, SizeOf, AlignOf;
    var ty, val, w := p[i].desc.args[j].inner, p[i].args[j].pointee, Before(p, base, cap, i, j).w;
    CapKept(p, base, cap, i, j);
    AfterArg(p, base, cap, i, j);
    SerializeReads(w, base, ty, val, Before(p, base, cap, i, j + 1).w.bytes);
    StartsAfter(w, base, ty, val);
  }

  /** An offset is never inside what is there already, nested pointees included. */
  lemma StartsAfter(w: Writer, base: u32, ty: ArgType, val: ArgValue)
    requires Serialize(w, base, ty, val).0.ok
    ensures |w.bytes| <= Serialize(w, base, ty, val).1
  {
    hide Build;
    var (w1, data) := Build(w, base, ty, val);
    BuildGrows(w, base, ty, val);
  }

  lemma BeforeGrows(p: Prog, base: u32, cap: nat, i: nat, j: nat, i': nat, j': nat)
    requires SmallCalls(p) && i <= i' < |p| && j <= Arity(p[i]) && j' <= Arity(p[i']) && (i == i' ==> j <= j')
    ensures Grown(Before(p, base, cap, i, j).w, Before(p, base, cap, i', j').w)
  {
    hide LowerArgs, LowerCalls;
    var st := LowerCalls(p, base, cap, i).0;
    if i == i' {
      ArgsGrow(p, base, i, st, j, j');
    } else {
      ArgsGrow(p, base, i, st, j, Arity(p[i]));
      WholeCall(p, base, cap, i);
      CallsGrow(p, base, cap, i + 1, i');
      var st' := LowerCalls(p, base, cap, i').0;
      NoArgs(p, base, i', st');
      ArgsGrow(p, base, i', st', 0, j');
    }
  }

  // ----- which programs are lowerable -----

  /** The wire's limits, and slots that fit their byte. */
  predicate WithinWire(p: Prog, cap: nat)
  {
    && |p| <= MAX_CALLS && SmallCalls(p) && cap <= 0x4000_0000
    && forall i, j | 0 <= i < |p| && 0 <= j < Arity(p[i]) && IsProduced(p[i], j) :: p[i].args[j].ref.slot < 256
  }

  /** Every out-array that some argument reads from is there. */
  predicate ArraysThere(p: Prog)
    requires SmallCalls(p)
  {
    forall i, j | 0 <= i < |p| && 0 <= j < Arity(p[i]) && IsProduced(p[i], j) ::
      var c := p[i].args[j].ref.call;
      c < |p| && p[c].desc.produces.OutArray? ==> HasArray(p[c])
  }

  /** A well-formed program within the wire's limits is lowerable exactly when the out-arrays it reads from
      are there. */
  lemma WellFormedLowers(parents: Parents, p: Prog, cap: nat)
    requires WellFormed(parents, p) && WithinWire(p, cap)
    ensures Lowerable(p, cap) <==> ArraysThere(p)
  {
    forall i, j | 0 <= i < |p| && 0 <= j < Arity(p[i]) && IsProduced(p[i], j) ensures p[i].args[j].ref.call < i {
      assert CallOk(parents, p, i, p[i]);
      assert RefOk(parents, p, i, p[i].desc.args[j].kind, p[i].args[j]);
    }
  }
}
