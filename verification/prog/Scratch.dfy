/** Laying values out in the scratch region (crates/fs-prog/src/lower.rs). Sizes stay below 4 GiB. */
module Scratch {
  import opened Words
  import opened Typed

  function RoundUp(x: nat, align: nat): (r: nat)
    ensures r >= x && (align > 0 ==> r % align == 0 && r < x + align)
  {
    var a := if align < 1 then 1 else align;
    var q := (x + a - 1) / a;
    RoundUpFacts(x, a);
    q * a
  }

  lemma RoundUpFacts(x: nat, a: nat)
    requires a > 0
    ensures var r := (x + a - 1) / a * a; x <= r < x + a && r % a == 0
  {
    var q := (x + a - 1) / a;
    assert (x + a - 1) == q * a + (x + a - 1) % a;
    ModMul(q, a);
  }

  lemma ModMul(q: nat, a: nat)
    requires a > 0
    ensures q * a % a == 0
  {
    if q > 0 {
      ModMul(q - 1, a);
      assert q * a == (q - 1) * a + a;
      AddMod((q - 1) * a, a);
    }
  }

  lemma AddMod(x: nat, a: nat)
    requires a > 0
    ensures (x + a) % a == x % a
  {
    var q := x / a;
    assert x + a == (q + 1) * a + x % a;
    QuotUnique(x + a, a, q + 1, x % a);
  }

  lemma QuotUnique(x: nat, a: nat, q: nat, r: nat)
    requires a > 0 && x == q * a + r && r < a
    ensures x % a == r
  {
    var d := x / a;
    assert x == d * a + x % a && (d - q) * a == d * a - q * a && (q - d) * a == q * a - d * a;
    if d > q {
      MulGe(d - q, a);
    } else if d < q {
      MulGe(q - d, a);
    }
  }

  lemma MulGe(k: nat, a: nat)
    requires k >= 1
    ensures k * a >= a
  {
  }

  // ----- sizes and layout -----

  function IntBytes(bits: u8): nat { (if bits < 8 then 8 else bits) / 8 }

  function IntAlign(bits: u8): nat { if bits == 64 then 8 else if bits == 32 then 4 else if bits == 16 then 2 else 1 }

  function SizeOf(ty: ArgType, val: ArgValue): nat
    decreases val, 4, 0
  {
    match ty
    case Int(bits) => IntBytes(bits)
    case Buffer => if val.Bytes? then |val.b| else 0
    case StringConst => if val.Bytes? then |val.b| else 0
    case StructT(fields) => if val.StructV? then StructSize(fields, val) else 0
    case _ => 4
  }

  /** What a length beside a value is generated as: the bytes it has, or those it points to. */
  function LenOf(ty: ArgType, val: ArgValue): u32
  {
    match ty
    case PtrT(inner, _) => if val.PtrV? then W32(SizeOf(inner, val.pointee)) else 0
    case Buffer => if val.Bytes? then W32(|val.b|) else 0
    case StringConst => if val.Bytes? then W32(|val.b|) else 0
    case _ => 0
  }

  /** Of the first `n` arguments, the lengths measure what they name if it stands before them, and are 0 otherwise. */
  ghost predicate Lengths(types: seq<ArgType>, args: seq<ArgValue>, n: nat)
    requires n <= |types| && n <= |args|
  {
    forall j | 0 <= j < n && types[j].Len? ::
      args[j] == Imm(if types[j].of < j then LenOf(types[types[j].of], args[types[j].of]) else 0)
  }

  function AlignOf(ty: ArgType, val: ArgValue): (a: nat)
    ensures a > 0
    decreases val, 2, 0
  {
    match ty
    case Int(bits) => IntAlign(bits)
    case Buffer => 1
    case StringConst => 1
    case StructT(fields) => if val.StructV? then MaxAlign(fields, val, Both(fields, val)) else 1
    case _ => 4
  }

  /** Fields and values are walked in pairs. */
  function Both(fields: seq<ArgType>, val: ArgValue): nat
    requires val.StructV?
  {
    if |fields| < |val.vals| then |fields| else |val.vals|
  }

  function MaxAlign(fields: seq<ArgType>, val: ArgValue, k: nat): (a: nat)
    requires val.StructV? && k <= Both(fields, val)
    ensures a > 0
    decreases val, 0, k
  {
    if k == 0 then 1
    else
      var m, a := MaxAlign(fields, val, k - 1), AlignOf(fields[k - 1], val.vals[k - 1]);
      if a > m then a else m
  }

  /** Where field `k` starts, and where the first `k` fields end. */
  function FieldAt(fields: seq<ArgType>, val: ArgValue, k: nat): nat
    requires val.StructV? && k < Both(fields, val)
    decreases val, 1, 2 * k + 1
  {
    RoundUp(FieldsEnd(fields, val, k), AlignOf(fields[k], val.vals[k]))
  }

  function FieldsEnd(fields: seq<ArgType>, val: ArgValue, k: nat): nat
    requires val.StructV? && k <= Both(fields, val)
    decreases val, 1, 2 * k
  {
    if k == 0 then 0 else FieldAt(fields, val, k - 1) + SizeOf(fields[k - 1], val.vals[k - 1])
  }

  function StructSize(fields: seq<ArgType>, val: ArgValue): nat
    requires val.StructV?
    decreases val, 3, 0
  {
    RoundUp(FieldsEnd(fields, val, Both(fields, val)), MaxAlign(fields, val, Both(fields, val)))
  }

  /** `struct_layout`. */
  method StructLayout(fields: seq<ArgType>, val: ArgValue) returns (offsets: seq<nat>, total: nat, align: nat)
    requires val.StructV?
    ensures |offsets| == Both(fields, val) && forall k | 0 <= k < |offsets| :: offsets[k] == FieldAt(fields, val, k)
    ensures total == SizeOf(StructT(fields), val) && align == AlignOf(StructT(fields), val)
  {
    var off := 0;
    offsets, align := [], 1;
    for k := 0 to Both(fields, val)
      invariant off == FieldsEnd(fields, val, k) && align == MaxAlign(fields, val, k)
      invariant |offsets| == k && forall j | 0 <= j < k :: offsets[j] == FieldAt(fields, val, j)
    {
      var a := AlignOf(fields[k], val.vals[k]);
      align := if a > align then a else align;
      off := RoundUp(off, a);
      offsets := offsets + [off];
      off := off + SizeOf(fields[k], val.vals[k]);
    }
    total := RoundUp(off, align);
  }

  /** Fields are aligned, in order, disjoint and inside the struct. */
  lemma {:induction false} LayoutOk(fields: seq<ArgType>, val: ArgValue, j: nat, k: nat)
    requires val.StructV? && j < k <= Both(fields, val)
    ensures FieldAt(fields, val, j) % AlignOf(fields[j], val.vals[j]) == 0
    ensures FieldAt(fields, val, j) + SizeOf(fields[j], val.vals[j]) <= FieldsEnd(fields, val, k)
    ensures k < Both(fields, val) ==> FieldsEnd(fields, val, k) <= FieldAt(fields, val, k)
    ensures FieldsEnd(fields, val, k) <= FieldsEnd(fields, val, Both(fields, val)) <= StructSize(fields, val)
    decreases Both(fields, val) - j, k
  {
    if j + 1 < k {
      LayoutOk(fields, val, j, k - 1);
    }
    EndsGrow(fields, val, k);
  }

  lemma {:induction false} EndsGrow(fields: seq<ArgType>, val: ArgValue, k: nat)
    requires val.StructV? && k <= Both(fields, val)
    ensures FieldsEnd(fields, val, k) <= FieldsEnd(fields, val, Both(fields, val))
    decreases Both(fields, val) - k
  {
    if k < Both(fields, val) {
      EndsGrow(fields, val, k + 1);
    }
  }

  // ----- the writer -----

  /** The image so far; `ok` records that nothing was truncated or dropped. */
  datatype Writer = Writer(bytes: seq<u8>, cap: nat, ok: bool)

  function Zeros(n: nat): (s: seq<u8>)
    ensures |s| == n
  {
    seq(n, _ => 0)
  }

  function WriteAt(w: Writer, data: seq<u8>, align: nat): (Writer, nat)
  {
    var off := RoundUp(|w.bytes|, align);
    if off >= w.cap then (w.(ok := false), w.cap)
    else
      var room := w.cap - off;
      var n := if |data| < room then |data| else room;
      (Writer(w.bytes + Zeros(off - |w.bytes|) + data[..n], w.cap, w.ok && n == |data|), off)
  }

  /** The bytes of one value; pointees go to the writer first. */
  function Build(w: Writer, base: u32, ty: ArgType, val: ArgValue): (r: (Writer, seq<u8>))
    decreases val, 1, 0
  {
    match val
    case Imm(v) =>
      (match ty
       case Const(_) => (w, Le(W32(v), 4))
       case Flags => (w, Le(W32(v), 4))
       case Int(bits) => (w, Le(v, 8)[..if IntBytes(bits) < 8 then IntBytes(bits) else 8])
       case PtrT(_, nullable) => (w, if nullable && v == 0 then Le(0, 4) else [])
       case _ => (w, []))
    case ResV(ref) =>
      if !ty.Res? then (w, []) else (match ref case Seed(s) => (w, Le(W32(s), 4)) case Produced(_, _) => (w, Le(0, 4)))
    case Bytes(b) => (w, if ty.Buffer? || ty.StringConst? then b else [])
    case PtrV(pointee) =>
      if !ty.PtrT? then (w, [])
      else
        var (w1, data) := Build(w, base, ty.inner, pointee);
        var (w2, off) := WriteAt(w1, data, AlignOf(ty.inner, pointee));
        (w2, Le(W32(base + off), 4))
    case StructV(vals) =>
      if !ty.StructT? then (w, []) else BuildFields(w, base, ty.fields, val, 0, Zeros(StructSize(ty.fields, val)))
  }

  /** Copy `data` over `buf` at `off`, as much as fits. */
  function Overlay(buf: seq<u8>, off: nat, data: seq<u8>): (r: seq<u8>)
    ensures |r| == |buf|
  {
    if off >= |buf| then buf
    else
      var n := if |data| < |buf| - off then |data| else |buf| - off;
      buf[..off] + data[..n] + buf[off + n..]
  }

  function BuildFields(w: Writer, base: u32, fields: seq<ArgType>, val: ArgValue, k: nat, buf: seq<u8>): (r: (Writer, seq<u8>))
    requires val.StructV? && k <= Both(fields, val)
    decreases val, 0, Both(fields, val) - k
  {
    if k == Both(fields, val) then (w, buf)
    else
      var (w1, data) := Build(w, base, fields[k], val.vals[k]);
      BuildFields(w1, base, fields, val, k + 1, Overlay(buf, FieldAt(fields, val, k), data))
  }

  /** Serialize one pointee; its offset. */
  function Serialize(w: Writer, base: u32, ty: ArgType, val: ArgValue): (Writer, nat)
  {
    var (w1, data) := Build(w, base, ty, val);
    WriteAt(w1, data, AlignOf(ty, val))
  }

  class ScratchWriter {
    var bytes: seq<u8>
    var cursor: nat
    const cap: nat
    ghost var ok: bool

    ghost predicate Valid()
      reads this
    {
      cursor == |bytes|
    }

    ghost function Contents(): Writer
      reads this
    {
      Writer(bytes, cap, ok)
    }

    constructor (cap: nat)
      ensures Valid() && Contents() == Writer([], cap, true)
    {
      this.cap := cap;
      bytes, cursor, ok := [], 0, true;
    }

    method Write(data: seq<u8>, align: nat) returns (off: nat)
      requires Valid()
      modifies this
      ensures Valid() && (Contents(), off) == WriteAt(old(Contents()), data, align)
    {
      off := RoundUp(cursor, align);
      if off >= cap {
        ok := false;
        return cap;
      }
      if |bytes| < off {
        bytes := bytes + Zeros(off - |bytes|);
      } else {
        assert bytes + Zeros(0) == bytes;
      }
      var room := cap - off;
      var n := if |data| < room then |data| else room;
      bytes := bytes + data[..n];
      cursor := off + n;
      ok := ok && n == |data|;
    }

    method BuildBytes(base: u32, ty: ArgType, val: ArgValue) returns (data: seq<u8>)
      requires Valid()
      modifies this
      ensures Valid() && (Contents(), data) == Build(old(Contents()), base, ty, val)
      decreases val, 1
    {
      hide Le, W32, Overlay, WriteAt, StructSize, AlignOf;
      match val {
        case PtrV(pointee) =>
          if !ty.PtrT? { return []; }
          var off := SerializeInto(base, ty.inner, pointee);
          data := Le(W32(base + off), 4);
        case StructV(vals) =>
          if !ty.StructT? { return []; }
          var offsets, total, _ := StructLayout(ty.fields, val);
          data := Zeros(total);
          for k := 0 to |offsets|
            invariant Valid()
            invariant Build(old(Contents()), base, ty, val) == BuildFields(Contents(), base, ty.fields, val, k, data)
          {
            var field := BuildBytes(base, ty.fields[k], vals[k]);
            data := Overlay(data, offsets[k], field);
          }
        case _ =>
          data := Build(Writer([], 0, true), base, ty, val).1;
      }
    }

    method SerializeInto(base: u32, ty: ArgType, val: ArgValue) returns (off: nat)
      requires Valid()
      modifies this
      ensures Valid() && (Contents(), off) == Serialize(old(Contents()), base, ty, val)
      decreases val, 2
    {
      var data := BuildBytes(base, ty, val);
      off := Write(data, AlignOf(ty, val));
    }
  }
}
