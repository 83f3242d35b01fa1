/** The shapes programs take in memory and on the wire, in numbers (crates/fs-prog/src/lower.rs): natural
    alignment, padding, the word at each place of the buffer the agent reads. */
module Layouts {
  import opened Words
  import opened Typed
  import opened Scratch
  import opened Lowering

  // ----- sizes and alignments -----

  /** The four integer widths take their own number of bytes, at multiples of it. */
  lemma IntegersNatural(bits: u8)
    ensures bits == 8 || bits == 16 || bits == 32 || bits == 64 ==> 8 * IntBytes(bits) == bits && IntAlign(bits) == IntBytes(bits)
    ensures bits != 16 && bits != 32 && bits != 64 ==> IntAlign(bits) == 1
    ensures bits < 16 ==> IntBytes(bits) == 1
  {
  }

  /** Words, pointers among them, are four bytes at multiples of four; bytes go anywhere, as many as there are. */
  lemma LeavesNatural(ty: ArgType, val: ArgValue)
    ensures ty.Const? || ty.Flags? || ty.Res? || ty.Len? || ty.PtrT? ==> SizeOf(ty, val) == 4 && AlignOf(ty, val) == 4
    ensures ty.Int? ==> SizeOf(ty, val) == IntBytes(ty.bits) && AlignOf(ty, val) == IntAlign(ty.bits)
    ensures (ty.Buffer? || ty.StringConst?) && val.Bytes? ==> SizeOf(ty, val) == |val.b| && AlignOf(ty, val) == 1
  {
  }

  ghost predicate AlignsFields(fields: seq<ArgType>, val: ArgValue, n: nat, a: nat)
    requires val.StructV? && n <= Both(fields, val)
  {
    && a >= 1 && (forall k | 0 <= k < n :: AlignOf(fields[k], val.vals[k]) <= a)
    && (a == 1 || exists k :: 0 <= k < n && a == AlignOf(fields[k], val.vals[k]))
  }

  lemma {:induction false} MaxAlignMeans(fields: seq<ArgType>, val: ArgValue, n: nat)
    requires val.StructV? && n <= Both(fields, val)
    ensures AlignsFields(fields, val, n, MaxAlign(fields, val, n))
    decreases n
  {
    hide AlignOf;
    if n > 0 {
      MaxAlignMeans(fields, val, n - 1);
    }
  }

  /** A struct is aligned like its most demanding field, each field follows the one before after less padding
      than its alignment, the first stands at the start, and the padded size is a multiple of the alignment. */
  lemma StructNatural(fields: seq<ArgType>, val: ArgValue)
    requires val.StructV?
    ensures AlignsFields(fields, val, Both(fields, val), AlignOf(StructT(fields), val))
    ensures Both(fields, val) > 0 ==> FieldAt(fields, val, 0) == 0
    ensures forall k | 0 < k < Both(fields, val) ::
      var end, at := FieldAt(fields, val, k - 1) + SizeOf(fields[k - 1], val.vals[k - 1]), FieldAt(fields, val, k);
      end <= at < end + AlignOf(fields[k], val.vals[k])
    ensures var n, size, a := Both(fields, val), SizeOf(StructT(fields), val), AlignOf(StructT(fields), val);
      && size % a == 0
      && (n > 0 ==> var end := FieldAt(fields, val, n - 1) + SizeOf(fields[n - 1], val.vals[n - 1]); end <= size < end + a)
      && (n == 0 ==> size == 0)
  {
    hide RoundUp, AlignOf, SizeOf, FieldAt, FieldsEnd, MaxAlign, StructSize;
    var n := Both(fields, val);
    MaxAlignMeans(fields, val, n);
    OfStruct(fields, val);
    if n > 0 {
      FirstField(fields, val);
      EndOf(fields, val, n);
    }
    forall k | 0 < k < n
      ensures var end, at := FieldAt(fields, val, k - 1) + SizeOf(fields[k - 1], val.vals[k - 1]), FieldAt(fields, val, k);
        end <= at < end + AlignOf(fields[k], val.vals[k])
    {
      EndOf(fields, val, k);
      FieldOf(fields, val, k);
    }
  }

  lemma OfStruct(fields: seq<ArgType>, val: ArgValue)
    requires val.StructV?
    ensures var n := Both(fields, val);
      && AlignOf(StructT(fields), val) == MaxAlign(fields, val, n)
      && SizeOf(StructT(fields), val) == RoundUp(FieldsEnd(fields, val, n), MaxAlign(fields, val, n))
      && (n == 0 ==> SizeOf(StructT(fields), val) == 0)
  {
    hide RoundUp;
    RoundZero(1);
  }

  lemma FirstField(fields: seq<ArgType>, val: ArgValue)
    requires val.StructV? && Both(fields, val) > 0
    ensures FieldAt(fields, val, 0) == 0
  {
    hide RoundUp, AlignOf;
    RoundZero(AlignOf(fields[0], val.vals[0]));
  }

  lemma EndOf(fields: seq<ArgType>, val: ArgValue, k: nat)
    requires val.StructV? && 0 < k <= Both(fields, val)
    ensures FieldsEnd(fields, val, k) == FieldAt(fields, val, k - 1) + SizeOf(fields[k - 1], val.vals[k - 1])
  {
    hide FieldAt, SizeOf;
  }

  lemma FieldOf(fields: seq<ArgType>, val: ArgValue, k: nat)
    requires val.StructV? && k < Both(fields, val)
    ensures FieldAt(fields, val, k) == RoundUp(FieldsEnd(fields, val, k), AlignOf(fields[k], val.vals[k]))
  {
    hide RoundUp, AlignOf, FieldsEnd;
  }

  lemma RoundZero(a: nat)
    requires a > 0
    ensures RoundUp(0, a) == 0
  {
    assert (a - 1) / a == 0 by { RemIs(a - 1, a, 0, a - 1); }
  }

  // ----- the wire buffer -----

  /** The word at every place: a count, eight calls of a number and six arguments, a count, thirty-two fixups of
      target call, target argument, kind and source; what is not used is zero, what does not fit is dropped. */
  lemma WireMeans(l: Lowered)
    requires SixArgs(l)
    ensures var w, n, m := Wire(l), if |l.calls| < 8 then |l.calls| else 8, if |l.fixups| < 32 then |l.fixups| else 32;
      && |w| == 186 && w[0] == n && w[57] == m
      && (forall i: nat | i < n :: CallAt(w, 1 + 7 * i, l.calls[i]))
      && (forall f: nat | f < m :: FixupAt(w, 58 + 4 * f, l.fixups[f]))
      && (forall k: nat | 1 + 7 * n <= k < 57 || 58 + 4 * m <= k < 186 :: w[k] == 0)
  {
    hide Wire, WireWord;
    var n, m := if |l.calls| < 8 then |l.calls| else 8, if |l.fixups| < 32 then |l.fixups| else 32;
    WireCounts(l);
    forall i: nat | i < n ensures CallAt(Wire(l), 1 + 7 * i, l.calls[i]) {
      WireCallAt(l, i);
    }
    forall f: nat | f < m ensures FixupAt(Wire(l), 58 + 4 * f, l.fixups[f]) {
      WireFixupAt(l, f);
    }
    forall k: nat | 1 + 7 * n <= k < 57 || 58 + 4 * m <= k < 186 ensures Wire(l)[k] == 0 {
      WireRest(l, k);
    }
  }

  lemma WireCounts(l: Lowered)
    requires SixArgs(l)
    ensures |Wire(l)| == 186
    ensures Wire(l)[0] == if |l.calls| < 8 then |l.calls| else 8
    ensures Wire(l)[57] == if |l.fixups| < 32 then |l.fixups| else 32
  {
    assert Wire(l)[0] == WireWord(l, 0) && Wire(l)[57] == WireWord(l, 57);
  }

  /** One call: its number and its six arguments. */
  ghost predicate CallAt(w: seq<u32>, k: nat, c: Concrete)
    requires k + 7 <= |w| && |c.args| == 6
  {
    w[k] == c.nr && forall j | 0 <= j < 6 :: w[k + 1 + j] == c.args[j]
  }

  lemma WireCallAt(l: Lowered, i: nat)
    requires SixArgs(l) && i < |l.calls| && i < 8
    ensures CallAt(Wire(l), 1 + 7 * i, l.calls[i])
  {
    hide Wire;
    WireCall(l, i, 0);
    forall j | 0 <= j < 6 ensures Wire(l)[1 + 7 * i + 1 + j] == l.calls[i].args[j] {
      WireCall(l, i, 1 + j);
    }
  }

  lemma WireFixupAt(l: Lowered, f: nat)
    requires SixArgs(l) && f < |l.fixups| && f < 32
    ensures FixupAt(Wire(l), 58 + 4 * f, l.fixups[f])
  {
    hide Wire, FixupWord;
    WireFixup(l, f, 0);
    WireFixup(l, f, 1);
    WireFixup(l, f, 2);
    WireFixup(l, f, 3);
    FixupWords(l.fixups[f]);
  }

  /** One fixup: its target, 0 and a call's index for a returned value, or 1 and a scratch offset. */
  ghost predicate FixupAt(w: seq<u32>, k: nat, f: Fixup)
    requires k + 4 <= |w|
  {
    && w[k] == f.dstCall % TWO32 && w[k + 1] == f.dstArg % TWO32
    && (match f.src case Reg(c) => w[k + 2] == 0 && w[k + 3] == c % TWO32 case MemAt(o) => w[k + 2] == 1 && w[k + 3] == o % TWO32)
  }

  lemma WireCall(l: Lowered, i: nat, k: nat)
    requires SixArgs(l) && i < |l.calls| && i < 8 && k < 7
    ensures Wire(l)[1 + 7 * i + k] == if k == 0 then l.calls[i].nr else l.calls[i].args[k - 1]
  {
    RemIs(7 * i + k, 7, i, k);
    assert Wire(l)[1 + 7 * i + k] == WireWord(l, 1 + 7 * i + k);
  }

  lemma WireFixup(l: Lowered, f: nat, k: nat)
    requires SixArgs(l) && f < |l.fixups| && f < 32 && k < 4
    ensures Wire(l)[58 + 4 * f + k] == FixupWord(l.fixups[f], k)
  {
    hide FixupWord;
    RemIs(4 * f + k, 4, f, k);
    assert Wire(l)[58 + 4 * f + k] == WireWord(l, 58 + 4 * f + k);
  }

  lemma FixupWords(f: Fixup)
    ensures FixupWord(f, 0) == f.dstCall % TWO32 && FixupWord(f, 1) == f.dstArg % TWO32
    ensures f.src.Reg? ==> FixupWord(f, 2) == 0 && FixupWord(f, 3) == f.src.call % TWO32
    ensures f.src.MemAt? ==> FixupWord(f, 2) == 1 && FixupWord(f, 3) == f.src.off % TWO32
  {
  }

  lemma WireRest(l: Lowered, k: nat)
    requires SixArgs(l)
    requires 1 + 7 * |l.calls| <= k < 57 || (58 + 4 * |l.fixups| <= k < 186)
    ensures Wire(l)[k] == 0
  {
    assert Wire(l)[k] == WireWord(l, k);
  }
}
