/** Reading a serialized value back out of the scratch image recovers it, except for lengths inside
    structs, which are sized but never written. */
module ScratchProof {
  import opened Words
  import opened Typed
  import opened Scratch

  /** The shapes a generator produces. A length measures a sibling, so it is never a pointee itself. */
  predicate TypeCorrect(ty: ArgType, val: ArgValue)
    decreases val
  {
    match val
    case Imm(v) =>
      ty.Const? || ty.Flags? || ty.Len? || (ty.Int? && (ty.bits == 8 || ty.bits == 16 || ty.bits == 32 || ty.bits == 64)) ||
      (ty.PtrT? && ty.nullable && v == 0)
    case ResV(_) => ty.Res?
    case Bytes(_) => ty.Buffer? || ty.StringConst?
    case PtrV(pointee) => ty.PtrT? && !ty.inner.Len? && TypeCorrect(ty.inner, pointee)
    case StructV(vals) =>
      ty.StructT? && |vals| == |ty.fields| && forall k | 0 <= k < |vals| :: TypeCorrect(ty.fields[k], vals[k])
  }

  function Word(buf: seq<u8>, at: nat): nat
    requires at + 4 <= |buf|
  {
    FromLe(buf[at..at + 4])
  }

  /** Where an embedded pointer leads. */
  function Target(buf: seq<u8>, at: nat, base: u32): nat
    requires at + 4 <= |buf|
  {
    W32(Word(buf, at) - base)
  }

  /** The bytes at `at` stand for the value, integers modulo their width, produced resources as 0; embedded
      pointers lead to such bytes in `img`. */
  ghost predicate Reads(buf: seq<u8>, at: nat, img: seq<u8>, base: u32, ty: ArgType, val: ArgValue)
    requires TypeCorrect(ty, val) && at + SizeOf(ty, val) <= |buf|
    decreases val
  {
    match val
    case Imm(v) =>
      if ty.Int? then FromLe(buf[at..at + IntBytes(ty.bits)]) == v % Pow256(IntBytes(ty.bits)) else Word(buf, at) == W32(v)
    case ResV(ref) => Word(buf, at) == (if ref.Seed? then W32(ref.lit) else 0)
    case Bytes(b) => buf[at..at + |b|] == b
    case PtrV(pointee) =>
      var t := Target(buf, at, base);
      t + SizeOf(ty.inner, pointee) <= |img| && Reads(img, t, img, base, ty.inner, pointee)
    case StructV(vals) =>
      forall k | 0 <= k < |vals| ::
        FieldFits(ty.fields, val, k);
        Reads(buf, at + FieldAt(ty.fields, val, k), img, base, ty.fields[k], vals[k])
  }

  lemma FieldFits(fields: seq<ArgType>, val: ArgValue, k: nat)
    requires val.StructV? && k < Both(fields, val)
    ensures FieldAt(fields, val, k) + SizeOf(fields[k], val.vals[k]) <= SizeOf(StructT(fields), val)
  {
    LayoutOk(fields, val, k, k + 1);
  }

  /** Every embedded pointer, however deep, leads inside the image. */
  ghost predicate Inside(buf: seq<u8>, at: nat, img: seq<u8>, base: u32, ty: ArgType, val: ArgValue)
    requires TypeCorrect(ty, val) && at + SizeOf(ty, val) <= |buf|
    decreases val
  {
    match val
    case PtrV(pointee) =>
      var t := Target(buf, at, base);
      t + SizeOf(ty.inner, pointee) <= |img| && Inside(img, t, img, base, ty.inner, pointee)
    case StructV(vals) =>
      forall k | 0 <= k < |vals| ::
        FieldFits(ty.fields, val, k);
        Inside(buf, at + FieldAt(ty.fields, val, k), img, base, ty.fields[k], vals[k])
    case _ => true
  }

  /** Every length inside the value is zero modulo 2^32. */
  ghost predicate LensZero(ty: ArgType, val: ArgValue)
    requires TypeCorrect(ty, val)
    decreases val
  {
    match val
    case Imm(v) => ty.Len? ==> W32(v) == 0
    case PtrV(pointee) => LensZero(ty.inner, pointee)
    case StructV(vals) => forall k | 0 <= k < |vals| :: LensZero(ty.fields[k], vals[k])
    case _ => true
  }

  // ----- numbers -----

  lemma {:induction false} LePrefix(v: nat, m: nat, n: nat)
    requires n <= m
    ensures Le(v, m)[..n] == Le(v, n)
    decreases n
  {
    if n > 0 {
      LePrefix(v / 256, m - 1, n - 1);
      assert Le(v, m)[..n] == [v % 256] + Le(v / 256, m - 1)[..n - 1];
    }
  }

  lemma {:induction false} FromLeMod(v: nat, n: nat)
    ensures FromLe(Le(v, n)) == v % Pow256(n)
  {
    if n > 0 {
      FromLeMod(v / 256, n - 1);
      assert Le(v, n)[1..] == Le(v / 256, n - 1);
      ModSplit(v, Pow256(n - 1));
    }
  }

  lemma ModSplit(v: nat, p: nat)
    requires p > 0
    ensures v % (256 * p) == v % 256 + 256 * (v / 256 % p)
  {
    var q, r := v / 256 / p, v / 256 % p;
    assert v / 256 == p * q + r;
    assert v == (256 * p) * q + (256 * r + v % 256);
    QuotUnique(v, 256 * p, q, 256 * r + v % 256);
  }

  lemma WordOf(v: nat)
    ensures Word(Le(W32(v), 4), 0) == W32(v)
  {
    LeWidths();
    LeRoundTrip(W32(v), 4);
    assert Le(W32(v), 4)[0..4] == Le(W32(v), 4);
  }

  lemma {:induction false} FromLeZeros(s: seq<u8>)
    requires forall i | 0 <= i < |s| :: s[i] == 0
    ensures FromLe(s) == 0
    decreases |s|
  {
    if s != [] {
      FromLeZeros(s[1..]);
    }
  }

  lemma TargetOf(base: u32, off: nat)
    requires off < TWO32
    ensures Target(Le(W32(base + off), 4), 0, base) == off
  {
    hide Le, FromLe;
    WordOf(base + off);
    if base + off < TWO32 {
      assert W32(base + off) == base + off;
    } else {
      assert W32(base + off) == base + off - TWO32;
      assert W32(off - TWO32) == off;
    }
  }

  // ----- moving a value's bytes -----

  /** The same bytes elsewhere, over a grown image, read the same. */
  lemma {:induction false} Moved(a: seq<u8>, x: nat, img: seq<u8>, b: seq<u8>, y: nat, img': seq<u8>, base: u32,
                                ty: ArgType, val: ArgValue)
    requires TypeCorrect(ty, val) && x + SizeOf(ty, val) <= |a| && y + SizeOf(ty, val) <= |b|
    requires a[x..x + SizeOf(ty, val)] == b[y..y + SizeOf(ty, val)] && img <= img' && Inside(a, x, img, base, ty, val)
    ensures Inside(b, y, img', base, ty, val)
    ensures Reads(a, x, img, base, ty, val) == Reads(b, y, img', base, ty, val)
    decreases val, 1
  {
    hide SizeOf, FieldAt, Inside, Reads;
    if val.StructV? {
      MovedStruct(a, x, img, b, y, img', base, ty, val);
    } else if val.PtrV? {
      assert a[x..x + 4] == b[y..y + 4] by { PtrSize(ty, val); }
      PtrSize(ty, val);
      var t := Target(a, x, base);
      PtrMeans(a, x, img, base, ty, val);
      PtrMeans(b, y, img', base, ty, val);
      Moved(img, t, img, img', t, img', base, ty.inner, val.pointee);
    } else {
      MovedLeaf(a, x, img, b, y, img', base, ty, val);
    }
  }

  /** A pointer reads as its pointee does where it leads. */
  lemma PtrMeans(a: seq<u8>, x: nat, img: seq<u8>, base: u32, ty: ArgType, val: ArgValue)
    requires TypeCorrect(ty, val) && val.PtrV? && x + SizeOf(ty, val) <= |a| && SizeOf(ty, val) == 4
    ensures var t := Target(a, x, base);
      && (Inside(a, x, img, base, ty, val) <==>
            t + SizeOf(ty.inner, val.pointee) <= |img| && Inside(img, t, img, base, ty.inner, val.pointee))
      && (Reads(a, x, img, base, ty, val) <==>
            t + SizeOf(ty.inner, val.pointee) <= |img| && Reads(img, t, img, base, ty.inner, val.pointee))
  {
    hide SizeOf;
  }

  lemma {:induction false} MovedStruct(a: seq<u8>, x: nat, img: seq<u8>, b: seq<u8>, y: nat, img': seq<u8>, base: u32,
                                       ty: ArgType, val: ArgValue)
    requires TypeCorrect(ty, val) && val.StructV? && x + SizeOf(ty, val) <= |a| && y + SizeOf(ty, val) <= |b|
    requires a[x..x + SizeOf(ty, val)] == b[y..y + SizeOf(ty, val)] && img <= img' && Inside(a, x, img, base, ty, val)
    ensures Inside(b, y, img', base, ty, val)
    ensures Reads(a, x, img, base, ty, val) == Reads(b, y, img', base, ty, val)
    decreases val, 0
  {
    hide SizeOf, FieldAt, Inside, Reads;
    forall k | 0 <= k < |val.vals| ensures SameField(a, x, img, b, y, img', base, ty.fields, val, k) {
      FieldFits(ty.fields, val, k);
      var off, m := FieldAt(ty.fields, val, k), SizeOf(ty.fields[k], val.vals[k]);
      SubSlice(a, x, b, y, SizeOf(ty, val), off, m);
      FieldInside(a, x, img, base, ty, val, k);
      Moved(a, x + off, img, b, y + off, img', base, ty.fields[k], val.vals[k]);
    }
    SameInside(a, x, img, b, y, img', base, ty.fields, val);
    SameReads(a, x, img, b, y, img', base, ty.fields, val);
  }

  lemma FieldInside(a: seq<u8>, x: nat, img: seq<u8>, base: u32, ty: ArgType, val: ArgValue, k: nat)
    requires TypeCorrect(ty, val) && val.StructV? && x + SizeOf(ty, val) <= |a| && Inside(a, x, img, base, ty, val) && k < |val.vals|
    ensures FieldAt(ty.fields, val, k) + SizeOf(ty.fields[k], val.vals[k]) <= SizeOf(ty, val)
    ensures Inside(a, x + FieldAt(ty.fields, val, k), img, base, ty.fields[k], val.vals[k])
  {
    hide SizeOf, FieldAt;
    FieldFits(ty.fields, val, k);
  }

  ghost predicate SameField(a: seq<u8>, x: nat, img: seq<u8>, b: seq<u8>, y: nat, img': seq<u8>, base: u32,
                            fields: seq<ArgType>, val: ArgValue, k: nat)
    requires val.StructV? && TypeCorrect(StructT(fields), val) && k < |fields|
    requires x + SizeOf(StructT(fields), val) <= |a| && y + SizeOf(StructT(fields), val) <= |b|
  {
    FieldFits(fields, val, k);
    var off := FieldAt(fields, val, k);
    Inside(b, y + off, img', base, fields[k], val.vals[k]) &&
    Reads(a, x + off, img, base, fields[k], val.vals[k]) == Reads(b, y + off, img', base, fields[k], val.vals[k])
  }

  lemma SameInside(a: seq<u8>, x: nat, img: seq<u8>, b: seq<u8>, y: nat, img': seq<u8>, base: u32,
                   fields: seq<ArgType>, val: ArgValue)
    requires val.StructV? && TypeCorrect(StructT(fields), val)
    requires x + SizeOf(StructT(fields), val) <= |a| && y + SizeOf(StructT(fields), val) <= |b|
    requires forall k | 0 <= k < |fields| :: SameField(a, x, img, b, y, img', base, fields, val, k)
    ensures Inside(b, y, img', base, StructT(fields), val)
  {
    hide SizeOf, FieldAt, Reads;
    forall k | 0 <= k < |fields|
      ensures FieldAt(fields, val, k) + SizeOf(fields[k], val.vals[k]) <= SizeOf(StructT(fields), val)
      ensures Inside(b, y + FieldAt(fields, val, k), img', base, fields[k], val.vals[k])
    {
      FieldFits(fields, val, k);
      assert SameField(a, x, img, b, y, img', base, fields, val, k);
    }
  }

  lemma SameReads(a: seq<u8>, x: nat, img: seq<u8>, b: seq<u8>, y: nat, img': seq<u8>, base: u32,
                   fields: seq<ArgType>, val: ArgValue)
    requires val.StructV? && TypeCorrect(StructT(fields), val)
    requires x + SizeOf(StructT(fields), val) <= |a| && y + SizeOf(StructT(fields), val) <= |b|
    requires forall k | 0 <= k < |fields| :: SameField(a, x, img, b, y, img', base, fields, val, k)
    ensures Reads(a, x, img, base, StructT(fields), val) == Reads(b, y, img', base, StructT(fields), val)
  {
    hide SizeOf, FieldAt, Inside, Reads, SameField, FieldReads, TypeCorrect;
    forall k | 0 <= k < |fields| ensures FieldReads(a, x, img, base, fields, val, k) == FieldReads(b, y, img', base, fields, val, k) {
      SameFieldReads(a, x, img, b, y, img', base, fields, val, k);
    }
    ReadsFields(a, x, img, base, fields, val);
    ReadsFields(b, y, img', base, fields, val);
  }

  ghost predicate FieldReads(buf: seq<u8>, at: nat, img: seq<u8>, base: u32, fields: seq<ArgType>, val: ArgValue, k: nat)
    requires val.StructV? && TypeCorrect(StructT(fields), val) && k < |fields| && at + SizeOf(StructT(fields), val) <= |buf|
  {
    FieldFits(fields, val, k);
    Reads(buf, at + FieldAt(fields, val, k), img, base, fields[k], val.vals[k])
  }

  lemma ReadsFields(buf: seq<u8>, at: nat, img: seq<u8>, base: u32, fields: seq<ArgType>, val: ArgValue)
    requires val.StructV? && TypeCorrect(StructT(fields), val) && at + SizeOf(StructT(fields), val) <= |buf|
    ensures Reads(buf, at, img, base, StructT(fields), val) <==>
      forall k | 0 <= k < |fields| :: FieldReads(buf, at, img, base, fields, val, k)
  {
    hide SizeOf, FieldAt;
    forall k | 0 <= k < |fields|
      ensures FieldAt(fields, val, k) + SizeOf(fields[k], val.vals[k]) <= SizeOf(StructT(fields), val)
      ensures FieldReads(buf, at, img, base, fields, val, k) ==
        Reads(buf, at + FieldAt(fields, val, k), img, base, fields[k], val.vals[k])
    {
      FieldFits(fields, val, k);
    }
    if Reads(buf, at, img, base, StructT(fields), val) {
      forall k | 0 <= k < |fields| ensures FieldReads(buf, at, img, base, fields, val, k) {
        assert Reads(buf, at + FieldAt(fields, val, k), img, base, fields[k], val.vals[k]);
      }
    }
  }

  lemma SameFieldReads(a: seq<u8>, x: nat, img: seq<u8>, b: seq<u8>, y: nat, img': seq<u8>, base: u32,
                       fields: seq<ArgType>, val: ArgValue, k: nat)
    requires val.StructV? && TypeCorrect(StructT(fields), val) && k < |fields|
    requires x + SizeOf(StructT(fields), val) <= |a| && y + SizeOf(StructT(fields), val) <= |b|
    requires SameField(a, x, img, b, y, img', base, fields, val, k)
    ensures FieldReads(a, x, img, base, fields, val, k) == FieldReads(b, y, img', base, fields, val, k)
  {
    hide SizeOf, FieldAt, Reads, Inside;
  }

  lemma PtrSize(ty: ArgType, val: ArgValue)
    requires TypeCorrect(ty, val) && val.PtrV?
    ensures SizeOf(ty, val) == 4
  {
  }

  lemma MovedLeaf(a: seq<u8>, x: nat, img: seq<u8>, b: seq<u8>, y: nat, img': seq<u8>, base: u32, ty: ArgType, val: ArgValue)
    requires TypeCorrect(ty, val) && x + SizeOf(ty, val) <= |a| && y + SizeOf(ty, val) <= |b|
    requires a[x..x + SizeOf(ty, val)] == b[y..y + SizeOf(ty, val)] && !val.PtrV? && !val.StructV?
    ensures Inside(b, y, img', base, ty, val)
    ensures Reads(a, x, img, base, ty, val) == Reads(b, y, img', base, ty, val)
  {
  }

  lemma SubSlice(a: seq<u8>, x: nat, b: seq<u8>, y: nat, n: nat, off: nat, m: nat)
    requires x + n <= |a| && y + n <= |b| && a[x..x + n] == b[y..y + n] && off + m <= n
    ensures a[x + off..x + off + m] == b[y + off..y + off + m]
  {
    var p, q := a[x + off..x + off + m], b[y + off..y + off + m];
    forall i | 0 <= i < m ensures p[i] == q[i] {
      assert a[x..x + n][off + i] == b[y..y + n][off + i];
    }
    assert p == q;
  }

  // ----- building -----

  /** What building a value establishes. */
  ghost predicate Built(w: Writer, r: (Writer, seq<u8>), base: u32, ty: ArgType, val: ArgValue)
    requires TypeCorrect(ty, val)
  {
    var (w', data) := r;
    && w.bytes <= w'.bytes && w'.cap == w.cap && (w'.ok ==> w.ok)
    && (w'.ok && !ty.Len? ==>
          |data| == SizeOf(ty, val) && Inside(data, 0, w'.bytes, base, ty, val) &&
          Reads(data, 0, w'.bytes, base, ty, val) == LensZero(ty, val))
    && (ty.Len? ==> data == [] && w' == w)
  }

  lemma LeafBuilt(w: Writer, base: u32, ty: ArgType, val: ArgValue)
    requires TypeCorrect(ty, val) && (val.Imm? || val.ResV? || val.Bytes?)
    ensures Built(w, Build(w, base, ty, val), base, ty, val)
  {
    match val {
      case Imm(v) =>
        WordOf(v);
        if ty.Int? {
          var n := IntBytes(ty.bits);
          LePrefix(v, 8, n);
          FromLeMod(v, n);
          assert Le(v, n)[0..n] == Le(v, n);
        } else if ty.PtrT? {
          WordOf(0);
        }
      case ResV(ref) =>
        if ref.Seed? {
          SeedWord(ref.lit);
        } else {
          WordOf(0);
        }
      case Bytes(b) =>
        assert b[0..|b|] == b;
    }
  }

  lemma SeedWord(s: i64)
    ensures Word(Le(W32(s), 4), 0) == W32(s)
  {
    LeWidths();
    LeRoundTrip(W32(s), 4);
    assert Le(W32(s), 4)[0..4] == Le(W32(s), 4);
  }

  /** Appending keeps the image and puts the data at the returned, aligned offset. */
  lemma Appended(w: Writer, data: seq<u8>, align: nat)
    requires align > 0
    ensures var (w', off) := WriteAt(w, data, align);
      && w.bytes <= w'.bytes && w'.cap == w.cap && (w'.ok ==> w.ok)
      && (w'.ok ==> off % align == 0 && off < w.cap && off + |data| == |w'.bytes| && w'.bytes[off..off + |data|] == data)
  {
    var off := RoundUp(|w.bytes|, align);
    if off < w.cap {
      var head := w.bytes + Zeros(off - |w.bytes|);
      assert |head| == off;
      assert data[..|data|] == data;
      assert (head + data)[off..off + |data|] == data;
    }
  }

  lemma {:induction false} BuildReads(w: Writer, base: u32, ty: ArgType, val: ArgValue)
    requires TypeCorrect(ty, val) && w.cap <= TWO32
    ensures Built(w, Build(w, base, ty, val), base, ty, val)
    decreases val, 1, 0
  {
    match val {
      case PtrV(pointee) =>
        BuildReads(w, base, ty.inner, pointee);
        PtrBuilt(w, base, ty, pointee);
      case StructV(vals) =>
        var buf := Zeros(StructSize(ty.fields, val));
        FieldsBuilt(w, base, ty.fields, val, 0, buf);
        StructBuilt(w, base, ty, val);
      case _ => LeafBuilt(w, base, ty, val);
    }
  }

  lemma PtrBuilt(w: Writer, base: u32, ty: ArgType, pointee: ArgValue)
    requires TypeCorrect(ty, PtrV(pointee)) && w.cap <= TWO32
    requires Built(w, Build(w, base, ty.inner, pointee), base, ty.inner, pointee)
    ensures Built(w, Build(w, base, ty, PtrV(pointee)), base, ty, PtrV(pointee))
  {
    var (w1, data) := Build(w, base, ty.inner, pointee);
    var (w2, off) := WriteAt(w1, data, AlignOf(ty.inner, pointee));
    assert Build(w, base, ty, PtrV(pointee)) == (w2, Le(W32(base + off), 4));
    hide Build, WriteAt, W32, AlignOf, Le, Reads, Inside, LensZero, SizeOf;
    Appended(w1, data, AlignOf(ty.inner, pointee));
    PrefixTrans(w.bytes, w1.bytes, w2.bytes);
    if w2.ok {
      PtrMoved(w1.bytes, data, w2.bytes, off, base, ty, pointee);
    }
  }

  lemma PrefixTrans(a: seq<u8>, b: seq<u8>, c: seq<u8>)
    requires a <= b <= c
    ensures a <= c
  {
  }

  /** A pointer to the appended bytes of a value stands for the value. */
  lemma PtrMoved(was: seq<u8>, data: seq<u8>, img: seq<u8>, off: nat, base: u32, ty: ArgType, pointee: ArgValue)
    requires TypeCorrect(ty, PtrV(pointee)) && was <= img && |data| == SizeOf(ty.inner, pointee) && off < TWO32
    requires off + |data| <= |img| && img[off..off + |data|] == data && Inside(data, 0, was, base, ty.inner, pointee)
    ensures var buf := Le(W32(base + off), 4);
      && |buf| == SizeOf(ty, PtrV(pointee)) && LensZero(ty, PtrV(pointee)) == LensZero(ty.inner, pointee)
      && Inside(buf, 0, img, base, ty, PtrV(pointee))
      && Reads(buf, 0, img, base, ty, PtrV(pointee)) == Reads(data, 0, was, base, ty.inner, pointee)
  {
    hide TypeCorrect, Le, W32, Reads, Inside, LensZero, SizeOf;
    assert TypeCorrect(ty.inner, pointee) by { InnerCorrect(ty, pointee); }
    Through(img, base, off, ty, pointee);
    assert data[0..|data|] == data;
    Moved(data, 0, was, img, off, img, base, ty.inner, pointee);
  }

  lemma InnerCorrect(ty: ArgType, pointee: ArgValue)
    requires TypeCorrect(ty, PtrV(pointee))
    ensures ty.PtrT? && !ty.inner.Len? && TypeCorrect(ty.inner, pointee)
  {
  }

  /** A pointer's own four bytes stand for what lies where they lead. */
  lemma Through(img: seq<u8>, base: u32, off: nat, ty: ArgType, pointee: ArgValue)
    requires TypeCorrect(ty, PtrV(pointee))
    ensures |Le(W32(base + off), 4)| == SizeOf(ty, PtrV(pointee)) && LensZero(ty, PtrV(pointee)) == LensZero(ty.inner, pointee)
    ensures off < TWO32 && off + SizeOf(ty.inner, pointee) <= |img| ==>
      var buf := Le(W32(base + off), 4);
      && Inside(buf, 0, img, base, ty, PtrV(pointee)) == Inside(img, off, img, base, ty.inner, pointee)
      && Reads(buf, 0, img, base, ty, PtrV(pointee)) == Reads(img, off, img, base, ty.inner, pointee)
  {
    hide Le, W32, Target;
    if off < TWO32 {
      TargetOf(base, off);
    }
  }

  lemma StructBuilt(w: Writer, base: u32, ty: ArgType, val: ArgValue)
    requires val.StructV? && TypeCorrect(ty, val)
    requires var (w', data) := BuildFields(w, base, ty.fields, val, 0, Zeros(StructSize(ty.fields, val)));
      && w.bytes <= w'.bytes && w'.cap == w.cap && (w'.ok ==> w.ok) && |data| == StructSize(ty.fields, val)
      && (w'.ok ==> Placed(data, w'.bytes, base, ty.fields, val, |ty.fields|))
    ensures Built(w, Build(w, base, ty, val), base, ty, val)
  {
    hide BuildFields, FieldAt, FieldsEnd, StructSize;
    var (w', data) := BuildFields(w, base, ty.fields, val, 0, Zeros(StructSize(ty.fields, val)));
    assert Build(w, base, ty, val) == (w', data);
    if w'.ok {
      FieldsTogether(data, w'.bytes, base, ty.fields, val);
    }
  }

  lemma FieldsTogether(buf: seq<u8>, img: seq<u8>, base: u32, fields: seq<ArgType>, val: ArgValue)
    requires val.StructV? && TypeCorrect(StructT(fields), val) && Placed(buf, img, base, fields, val, |fields|)
    ensures |buf| == SizeOf(StructT(fields), val) && Inside(buf, 0, img, base, StructT(fields), val)
    ensures Reads(buf, 0, img, base, StructT(fields), val) == LensZero(StructT(fields), val)
  {
    hide FieldAt, FieldsEnd, StructSize;
    forall j | 0 <= j < |fields|
      ensures FieldAt(fields, val, j) + SizeOf(fields[j], val.vals[j]) <= SizeOf(StructT(fields), val)
      ensures Inside(buf, 0 + FieldAt(fields, val, j), img, base, fields[j], val.vals[j])
      ensures Reads(buf, 0 + FieldAt(fields, val, j), img, base, fields[j], val.vals[j]) == LensZero(fields[j], val.vals[j])
    {
      FieldFits(fields, val, j);
      assert FieldOk(buf, img, base, fields, val, j);
    }
  }

  /** Fields up to `k` are in place, and everything after them is still zero. */
  ghost predicate Placed(buf: seq<u8>, img: seq<u8>, base: u32, fields: seq<ArgType>, val: ArgValue, k: nat)
    requires TypeCorrect(StructT(fields), val) && val.StructV? && k <= |fields|
  {
    && |buf| == StructSize(fields, val)
    && (forall j | 0 <= j < k :: FieldOk(buf, img, base, fields, val, j))
    && forall i | FieldsEnd(fields, val, k) <= i < |buf| :: buf[i] == 0
  }

  ghost predicate FieldOk(buf: seq<u8>, img: seq<u8>, base: u32, fields: seq<ArgType>, val: ArgValue, j: nat)
    requires TypeCorrect(StructT(fields), val) && val.StructV? && j < |fields| && |buf| == StructSize(fields, val)
  {
    FieldFits(fields, val, j);
    var off := FieldAt(fields, val, j);
    Inside(buf, off, img, base, fields[j], val.vals[j]) &&
    Reads(buf, off, img, base, fields[j], val.vals[j]) == LensZero(fields[j], val.vals[j])
  }

  lemma {:induction false} FieldsBuilt(w: Writer, base: u32, fields: seq<ArgType>, val: ArgValue, k: nat, buf: seq<u8>)
    requires val.StructV? && TypeCorrect(StructT(fields), val) && w.cap <= TWO32 && k <= |fields|
    requires |buf| == StructSize(fields, val) && (w.ok ==> Placed(buf, w.bytes, base, fields, val, k))
    ensures var (w', data) := BuildFields(w, base, fields, val, k, buf);
      && w.bytes <= w'.bytes && w'.cap == w.cap && (w'.ok ==> w.ok) && |data| == |buf|
      && (w'.ok ==> Placed(data, w'.bytes, base, fields, val, |fields|))
    decreases val, 0, |fields| - k
  {
    if k < |fields| {
      hide Build, Placed, Overlay, FieldAt, StructSize, SizeOf, Reads, Inside, LensZero;
      var (w1, data) := Build(w, base, fields[k], val.vals[k]);
      BuildReads(w, base, fields[k], val.vals[k]);
      var buf' := Overlay(buf, FieldAt(fields, val, k), data);
      if w1.ok {
        NextField(w, w1, base, fields, val, k, buf, data);
      }
      FieldsBuilt(w1, base, fields, val, k + 1, buf');
    }
  }

  /** Overlaying field `k` puts it in place and disturbs no other. */
  lemma NextField(w: Writer, w1: Writer, base: u32, fields: seq<ArgType>, val: ArgValue, k: nat, buf: seq<u8>, data: seq<u8>)
    requires val.StructV? && TypeCorrect(StructT(fields), val) && k < |fields|
    requires Placed(buf, w.bytes, base, fields, val, k)
    requires Built(w, (w1, data), base, fields[k], val.vals[k]) && w1.ok
    ensures Placed(Overlay(buf, FieldAt(fields, val, k), data), w1.bytes, base, fields, val, k + 1)
  {
    hide FieldAt, FieldsEnd, SizeOf, StructSize, Reads, Inside, LensZero, FieldOk, Overlay, TypeCorrect;
    AllFields(fields, val);
    var off, size := FieldAt(fields, val, k), SizeOf(fields[k], val.vals[k]);
    var buf' := Overlay(buf, off, data);
    Edges(fields, val, k);
    OverlayOther(buf, off, data, size);
    forall j | 0 <= j < k ensures FieldOk(buf', w1.bytes, base, fields, val, j) {
      EarlierField(buf, w.bytes, buf', w1.bytes, base, fields, val, j, k, size);
    }
    if fields[k].Len? {
      LenField(buf, w1.bytes, base, fields, val, k);
    } else {
      ThisField(buf, data, w1.bytes, base, fields, val, k);
    }
  }

  lemma AllFields(fields: seq<ArgType>, val: ArgValue)
    requires val.StructV? && TypeCorrect(StructT(fields), val)
    ensures |val.vals| == |fields| == Both(fields, val) && forall k | 0 <= k < |fields| :: TypeCorrect(fields[k], val.vals[k])
  {
  }

  lemma EarlierField(buf: seq<u8>, img: seq<u8>, buf': seq<u8>, img': seq<u8>, base: u32, fields: seq<ArgType>, val: ArgValue,
                     j: nat, k: nat, size: nat)
    requires val.StructV? && TypeCorrect(StructT(fields), val) && j < k < |fields|
    requires |buf| == |buf'| == StructSize(fields, val) && img <= img' && size == SizeOf(fields[k], val.vals[k])
    requires var off := FieldAt(fields, val, k); forall i | 0 <= i < |buf| && !(off <= i < off + size) :: buf'[i] == buf[i]
    requires FieldOk(buf, img, base, fields, val, j)
    ensures FieldOk(buf', img', base, fields, val, j)
  {
    hide FieldAt, FieldsEnd, SizeOf, StructSize, Reads, Inside, LensZero;
    FieldFits(fields, val, j);
    Earlier(fields, val, j, k);
    StructIs(fields, val);
    var o, n := FieldAt(fields, val, j), SizeOf(fields[j], val.vals[j]);
    assert buf[o..o + n] == buf'[o..o + n];
    Moved(buf, o, img, buf', o, img', base, fields[j], val.vals[j]);
  }

  lemma StructIs(fields: seq<ArgType>, val: ArgValue)
    requires val.StructV?
    ensures SizeOf(StructT(fields), val) == StructSize(fields, val)
  {
  }

  lemma ThisField(buf: seq<u8>, data: seq<u8>, img: seq<u8>, base: u32, fields: seq<ArgType>, val: ArgValue, k: nat)
    requires val.StructV? && TypeCorrect(StructT(fields), val) && k < |fields| && |buf| == StructSize(fields, val)
    requires |data| == SizeOf(fields[k], val.vals[k]) && Inside(data, 0, img, base, fields[k], val.vals[k])
    requires Reads(data, 0, img, base, fields[k], val.vals[k]) == LensZero(fields[k], val.vals[k])
    ensures FieldOk(Overlay(buf, FieldAt(fields, val, k), data), img, base, fields, val, k)
  {
    hide FieldAt, FieldsEnd, SizeOf, StructSize, Reads, Inside, LensZero, Overlay;
    var off := FieldAt(fields, val, k);
    FieldFits(fields, val, k);
    StructIs(fields, val);
    assert data[0..|data|] == data;
    OverlayHere(buf, off, data);
    Moved(data, 0, img, Overlay(buf, off, data), off, img, base, fields[k], val.vals[k]);
  }

  lemma Edges(fields: seq<ArgType>, val: ArgValue, k: nat)
    requires val.StructV? && k < Both(fields, val)
    ensures FieldsEnd(fields, val, k) <= FieldAt(fields, val, k)
    ensures FieldsEnd(fields, val, k + 1) == FieldAt(fields, val, k) + SizeOf(fields[k], val.vals[k]) <= StructSize(fields, val)
  {
    LayoutOk(fields, val, k, k + 1);
  }

  lemma Earlier(fields: seq<ArgType>, val: ArgValue, j: nat, k: nat)
    requires val.StructV? && j < k < Both(fields, val)
    ensures FieldAt(fields, val, j) + SizeOf(fields[j], val.vals[j]) <= FieldAt(fields, val, k)
  {
    LayoutOk(fields, val, j, k);
  }

  lemma OverlayOther(buf: seq<u8>, off: nat, data: seq<u8>, size: nat)
    requires off + size <= |buf| && |data| <= size
    ensures var r := Overlay(buf, off, data); forall i | 0 <= i < |buf| && !(off <= i < off + size) :: r[i] == buf[i]
  {
  }

  lemma OverlayHere(buf: seq<u8>, off: nat, data: seq<u8>)
    requires off + |data| <= |buf|
    ensures Overlay(buf, off, data)[off..off + |data|] == data
  {
    if off < |buf| {
      assert data[..|data|] == data;
    }
  }

  /** A length's four bytes stay zero, so it reads back exactly when it is zero. */
  lemma LenField(buf: seq<u8>, img: seq<u8>, base: u32, fields: seq<ArgType>, val: ArgValue, k: nat)
    requires val.StructV? && TypeCorrect(StructT(fields), val) && k < |fields| && fields[k].Len?
    requires |buf| == StructSize(fields, val) && forall i | FieldsEnd(fields, val, k) <= i < |buf| :: buf[i] == 0
    ensures FieldOk(Overlay(buf, FieldAt(fields, val, k), []), img, base, fields, val, k)
  {
    hide StructSize;
    var off := FieldAt(fields, val, k);
    Edges(fields, val, k);
    FieldFits(fields, val, k);
    var buf' := Overlay(buf, off, []);
    assert buf' == buf;
    FromLeZeros(buf[off..off + 4]);
  }

  /** Serializing a pointee: it lies aligned inside the image at the returned offset, and reading there,
      following pointers, recovers it if and only if its inner lengths are zero. The same holds in every
      image that later writes produce. */
  lemma SerializeReads(w: Writer, base: u32, ty: ArgType, val: ArgValue, later: seq<u8>)
    requires TypeCorrect(ty, val) && !ty.Len? && w.cap <= TWO32
    requires var (w', off) := Serialize(w, base, ty, val); w'.ok && w'.bytes <= later
    ensures var (w', off) := Serialize(w, base, ty, val);
      && off % AlignOf(ty, val) == 0 && off + SizeOf(ty, val) == |w'.bytes| && w.bytes <= w'.bytes
      && (Reads(later, off, later, base, ty, val) <==> LensZero(ty, val))
  {
    hide Reads, Inside, LensZero, SizeOf;
    var (w1, data) := Build(w, base, ty, val);
    var (w', off) := WriteAt(w1, data, AlignOf(ty, val));
    BuildReads(w, base, ty, val);
    Appended(w1, data, AlignOf(ty, val));
    assert data[0..|data|] == data;
    assert later[off..off + |data|] == w'.bytes[off..off + |data|];
    Moved(data, 0, w1.bytes, later, off, later, base, ty, val);
  }

  /** A timespec-like struct holding a length of 5 reads it back as 0. */
  lemma LostLength(base: u32)
    ensures var ty, val := StructT([Len(0)]), StructV([Imm(5)]);
      var (w, off) := Serialize(Writer([], 64, true), base, ty, val);
      w.ok && off == 0 && w.bytes == [0, 0, 0, 0] && TypeCorrect(ty, val) && !LensZero(ty, val)
  {
    var ty, val := StructT([Len(0)]), StructV([Imm(5)]);
    assert val.vals[0] == Imm(5) && Both([Len(0)], val) == 1;
    assert FieldAt([Len(0)], val, 0) == RoundUp(0, 4) == 0;
    assert FieldsEnd([Len(0)], val, 1) == 4;
    assert MaxAlign([Len(0)], val, 0) == 1 && MaxAlign([Len(0)], val, 1) == 4;
    assert StructSize([Len(0)], val) == RoundUp(4, 4) == 4;
    var w := Writer([], 64, true);
    assert Build(w, base, Len(0), Imm(5)) == (w, []);
    assert BuildFields(w, base, [Len(0)], val, 0, Zeros(4)) == BuildFields(w, base, [Len(0)], val, 1, Overlay(Zeros(4), 0, []));
    assert Overlay(Zeros(4), 0, []) == Zeros(4) == [0, 0, 0, 0];
    assert [] + Zeros(0) + Zeros(4)[..4] == Zeros(4);
    assert !LensZero(Len(0), val.vals[0]);
  }
}
