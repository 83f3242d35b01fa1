/** The typed program tree: argument types and values, calls, resource references
    (crates/fs-prog/src/types.rs, prog.rs, resource.rs). */
module Typed {
  import opened Words

  type i64 = x: int | -0x8000_0000_0000_0000 <= x < 0x8000_0000_0000_0000

  /** Resource kinds by number. */
  type Kind = nat

  datatype ArgType =
    | Const(v: u32)
    | Int(bits: u8)
    | Flags
    | Res(kind: Kind)
    | Len(of: nat)
    | PtrT(inner: ArgType, nullable: bool)
    | Buffer
    | StructT(fields: seq<ArgType>)
    | StringConst

  datatype ResRef = Seed(lit: i64) | Produced(call: nat, slot: nat)

  datatype ArgValue =
    | Imm(v: u64)
    | ResV(ref: ResRef)
    | Bytes(b: seq<u8>)
    | StructV(vals: seq<ArgValue>)
    | PtrV(pointee: ArgValue)

  datatype Produces = NoRes | Ret(kind: Kind) | OutArray(arg: nat, kind: Kind, count: nat)
  {
    function KindAt(slot: nat): Option<Kind> {
      match this
      case NoRes => None
      case Ret(k) => if slot == 0 then Some(k) else None
      case OutArray(_, k, n) => if slot < n then Some(k) else None
    }
  }

  datatype Desc = Desc(nr: u32, args: seq<ArgType>, produces: Produces)

  datatype Call = Call(desc: Desc, args: seq<ArgValue>)

  type Prog = seq<Call>

  const MAX_CALLS: nat := 8

  /** The single-parent subtype table; a parent stands before its children, so chains end. */
  type Parents = seq<Option<Kind>>

  function ParentOf(parents: Parents, k: Kind): Option<Kind>
  {
    if k < |parents| && parents[k].Some? && parents[k].value < k then parents[k] else None
  }

  predicate Compat(parents: Parents, want: Kind, have: Kind)
    decreases have
  {
    want == have || (ParentOf(parents, have).Some? && Compat(parents, want, ParentOf(parents, have).value))
  }

  lemma {:induction false} CompatTrans(parents: Parents, a: Kind, b: Kind, c: Kind)
    requires Compat(parents, a, b) && Compat(parents, b, c)
    ensures Compat(parents, a, c)
    decreases c
  {
    if b != c {
      CompatTrans(parents, a, b, ParentOf(parents, c).value);
    }
  }

  /** One resource argument of call `i`: it refers strictly backward to a compatible slot. */
  predicate RefOk(parents: Parents, p: Prog, i: nat, want: Kind, v: ArgValue)
    requires i <= |p|
  {
    v.ResV? && (v.ref.Produced? ==>
      v.ref.call < i && p[v.ref.call].desc.produces.KindAt(v.ref.slot).Some? &&
      Compat(parents, want, p[v.ref.call].desc.produces.KindAt(v.ref.slot).value))
  }

  predicate CallOk(parents: Parents, p: Prog, i: nat, c: Call)
    requires i <= |p|
  {
    |c.args| == |c.desc.args| &&
    forall j | 0 <= j < |c.args| && c.desc.args[j].Res? :: RefOk(parents, p, i, c.desc.args[j].kind, c.args[j])
  }

  /** `is_well_formed`. */
  predicate WellFormed(parents: Parents, p: Prog)
  {
    forall i | 0 <= i < |p| :: CallOk(parents, p, i, p[i])
  }
}
