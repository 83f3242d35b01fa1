/** The flat machine: fetch, decode and run bytes at an instruction pointer. */
module Flat {
  import opened Words
  import opened X86
  import opened Encode
  import EncodeProof

  datatype Flat<!W> = At(ip: int, x: X<W>) | Finished(x: X<W>) | Crashed

  function FlatStep<W>(h: Host<W>, bytes: seq<u8>, ip: int, x: X<W>): (s: Flat<W>)
    requires |x.r| == 16
    ensures s.At? || s.Finished? ==> |s.x.r| == 16
  {
    if !(0 <= ip <= |bytes|) then Crashed
    else
      match Decode(bytes[ip..])
      case None => Crashed
      case Some((i, n)) =>
        match i
        case Ret => if x.stack == [] then Finished(x) else Crashed
        case Jcc(cc, rel) =>
          if x.flags.None? then Crashed
          else At(ip + n + (if Cond(cc, x.flags.value) then Signed(rel) else 0), x)
        case Jmp(rel) => At(ip + n + Signed(rel), x)
        case _ => (match Do(h, i, x) case None => Crashed case Some(y) => At(ip + n, y))
  }

  /** `fuel` instructions, or fewer if the program returns. */
  function FlatRun<W>(h: Host<W>, bytes: seq<u8>, s: Flat<W>, fuel: nat): (t: Flat<W>)
    requires !s.Crashed? ==> |s.x.r| == 16
    ensures !t.Crashed? ==> |t.x.r| == 16
    ensures fuel == 0 ==> t == s
    decreases fuel
  {
    if fuel == 0 || !s.At? then s else FlatRun(h, bytes, FlatStep(h, bytes, s.ip, s.x), fuel - 1)
  }

  lemma {:induction false} FlatAdd<W>(h: Host<W>, bytes: seq<u8>, s: Flat<W>, a: nat, b: nat)
    requires !s.Crashed? ==> |s.x.r| == 16
    ensures FlatRun(h, bytes, s, a + b) == FlatRun(h, bytes, FlatRun(h, bytes, s, a), b)
    decreases a
  {
    hide FlatStep;
    if a > 0 && s.At? {
      FlatAdd(h, bytes, FlatStep(h, bytes, s.ip, s.x), a - 1, b);
    }
  }

  const JMP_LEN: nat := 5
  const JCC_LEN: nat := 6

  function NodeBytes(n: Node): (s: seq<u8>)
    decreases n
  {
    match n
    case I(i) => Enc(i)
    case Skip(cc, inner) => Enc(Jcc(cc, W32(|Assemble(inner)|))) + Assemble(inner)
    case IfElse(cc, thn, els) =>
      Enc(Jcc(cc, W32(|Assemble(els)| + JMP_LEN))) + Assemble(els) + Enc(Jmp(W32(|Assemble(thn)|))) + Assemble(thn)
  }

  function Assemble(code: seq<Node>): seq<u8>
    decreases code
  {
    if code == [] then [] else NodeBytes(code[0]) + Assemble(code[1..])
  }

  lemma {:induction false} AssembleAppend(a: seq<Node>, b: seq<Node>)
    ensures Assemble(a + b) == Assemble(a) + Assemble(b)
    decreases |a|
  {
    hide NodeBytes;
    if a == [] {
      assert a + b == b;
    } else {
      assert (a + b)[0] == a[0] && (a + b)[1..] == a[1..] + b;
      AssembleAppend(a[1..], b);
    }
  }

  lemma Single(n: Node)
    ensures Assemble([n]) == NodeBytes(n)
  {
    assert [n][1..] == [];
    assert Assemble([n]) == NodeBytes(n) + [];
  }

  const MAX_BLOCK: nat := 0x7fff_ff00

  /** Every instruction encodable, no raw jumps, every inner block within reach of its displacement. */
  ghost predicate NodeOk(n: Node)
    decreases n
  {
    match n
    case I(i) => Encodable(i) && !i.Jcc? && !i.Jmp?
    case Skip(_, inner) => CodeOk(inner) && |Assemble(inner)| < MAX_BLOCK
    case IfElse(_, thn, els) => CodeOk(thn) && CodeOk(els) && |Assemble(thn)| < MAX_BLOCK && |Assemble(els)| < MAX_BLOCK
  }

  ghost predicate CodeOk(code: seq<Node>)
    decreases code
  {
    code == [] || (NodeOk(code[0]) && CodeOk(code[1..]))
  }

  ghost predicate Placed(bytes: seq<u8>, p: nat, s: seq<u8>) { p + |s| <= |bytes| && bytes[p..p + |s|] == s }

  lemma PlacedParts(bytes: seq<u8>, p: nat, a: seq<u8>, b: seq<u8>)
    requires Placed(bytes, p, a + b)
    ensures Placed(bytes, p, a) && Placed(bytes, p + |a|, b)
  {
    var s := bytes[p..p + |a + b|];
    assert s[..|a|] == a && s[|a|..] == b;
    assert bytes[p..p + |a|] == s[..|a|];
    assert bytes[p + |a|..p + |a| + |b|] == s[|a|..];
  }

  lemma Fetch(bytes: seq<u8>, p: nat, i: Instr)
    requires Placed(bytes, p, Enc(i)) && Encodable(i)
    ensures Decode(bytes[p..]) == Some((i, |Enc(i)|))
  {
    hide Decode, Enc, Encodable;
    assert bytes[p..] == Enc(i) + bytes[p + |Enc(i)|..];
    EncodeProof.RoundTrip(i, bytes[p + |Enc(i)|..]);
  }

  lemma JumpLens(cc: Cc, rel: u32)
    ensures |Enc(Jcc(cc, rel))| == JCC_LEN && |Enc(Jmp(rel))| == JMP_LEN
  {
  }

  /** Where the flat program stands when the structured one has done `o` up to byte `q`. */
  function Target<W>(o: Out<W>, q: nat): Flat<W>
  {
    match o case Go(y) => At(q, y) case Returned(y) => Finished(y) case Stuck => Crashed
  }

  lemma JumpTo<W>(h: Host<W>, bytes: seq<u8>, p: nat, i: Instr, x: X<W>)
    requires |x.r| == 16 && Placed(bytes, p, Enc(i)) && (i.Jcc? || i.Jmp?) && i.rel < 0x8000_0000
    requires i.Jcc? ==> x.flags.Some?
    ensures FlatRun(h, bytes, At(p, x), 1) ==
      At(p + |Enc(i)| + (if i.Jmp? || Cond(i.cc, x.flags.value) then i.rel else 0), x)
  {
    hide Decode, Enc, Do;
    Fetch(bytes, p, i);
    assert FlatRun(h, bytes, At(p, x), 1) == FlatRun(h, bytes, FlatStep(h, bytes, p, x), 0);
  }

  lemma PlainStep<W>(h: Host<W>, bytes: seq<u8>, p: nat, i: Instr, x: X<W>)
    requires |x.r| == 16 && Placed(bytes, p, Enc(i)) && NodeOk(I(i))
    ensures FlatRun(h, bytes, At(p, x), 1) == Target(RunNode(h, I(i), x), p + |Enc(i)|)
  {
    hide Decode, Enc, Do, Encodable;
    Fetch(bytes, p, i);
    assert FlatRun(h, bytes, At(p, x), 1) == FlatRun(h, bytes, FlatStep(h, bytes, p, x), 0);
  }

  lemma {:induction false} SimNode<W>(h: Host<W>, bytes: seq<u8>, p: nat, n: Node, x: X<W>) returns (k: nat)
    requires |x.r| == 16 && NodeOk(n) && Placed(bytes, p, NodeBytes(n)) && !RunNode(h, n, x).Stuck?
    ensures FlatRun(h, bytes, At(p, x), k) == Target(RunNode(h, n, x), p + |NodeBytes(n)|)
    decreases n
  {
    hide Enc, Do, FlatRun, Encodable;
    match n {
      case I(i) =>
        k := 1;
        PlainStep(h, bytes, p, i, x);
      case Skip(cc, inner) =>
        k := SimSkip(h, bytes, p, cc, inner, x);
      case IfElse(cc, thn, els) =>
        k := SimIfElse(h, bytes, p, cc, thn, els, x);
    }
  }

  lemma {:induction false} SimSkip<W>(h: Host<W>, bytes: seq<u8>, p: nat, cc: Cc, inner: seq<Node>, x: X<W>)
    returns (k: nat)
    requires |x.r| == 16 && NodeOk(Skip(cc, inner)) && Placed(bytes, p, NodeBytes(Skip(cc, inner)))
    requires !RunNode(h, Skip(cc, inner), x).Stuck?
    ensures FlatRun(h, bytes, At(p, x), k) == Target(RunNode(h, Skip(cc, inner), x), p + |NodeBytes(Skip(cc, inner))|)
    decreases inner, 1
  {
    hide Enc, Do, FlatRun;
    var j := Jcc(cc, W32(|Assemble(inner)|));
    JumpLens(cc, j.rel);
    PlacedParts(bytes, p, Enc(j), Assemble(inner));
    JumpTo(h, bytes, p, j, x);
    if Cond(cc, x.flags.value) {
      k := 1;
    } else {
      var m := Sim(h, bytes, p + JCC_LEN, inner, x);
      k := 1 + m;
      FlatAdd(h, bytes, At(p, x), 1, m);
    }
  }

  /** Where the four parts of a compiled if-else stand. */
  lemma IfElsePlaced(bytes: seq<u8>, p: nat, cc: Cc, thn: seq<Node>, els: seq<Node>)
    requires Placed(bytes, p, NodeBytes(IfElse(cc, thn, els)))
    ensures var t, e := Assemble(thn), Assemble(els);
      var j, over := Jcc(cc, W32(|e| + JMP_LEN)), Jmp(W32(|t|));
      && |Enc(j)| == JCC_LEN && |Enc(over)| == JMP_LEN
      && Placed(bytes, p, Enc(j)) && Placed(bytes, p + JCC_LEN, e)
      && Placed(bytes, p + JCC_LEN + |e|, Enc(over)) && Placed(bytes, p + JCC_LEN + |e| + JMP_LEN, t)
      && |NodeBytes(IfElse(cc, thn, els))| == JCC_LEN + |e| + JMP_LEN + |t|
  {
    hide Enc, Placed;
    var t, e := Assemble(thn), Assemble(els);
    var j, over := Jcc(cc, W32(|e| + JMP_LEN)), Jmp(W32(|t|));
    JumpLens(cc, j.rel);
    JumpLens(cc, over.rel);
    PlacedParts(bytes, p, Enc(j) + e + Enc(over), t);
    PlacedParts(bytes, p, Enc(j) + e, Enc(over));
    PlacedParts(bytes, p, Enc(j), e);
  }

  lemma {:induction false} SimIfElse<W>(h: Host<W>, bytes: seq<u8>, p: nat, cc: Cc, thn: seq<Node>, els: seq<Node>, x: X<W>)
    returns (k: nat)
    requires |x.r| == 16 && NodeOk(IfElse(cc, thn, els)) && Placed(bytes, p, NodeBytes(IfElse(cc, thn, els)))
    requires !RunNode(h, IfElse(cc, thn, els), x).Stuck?
    ensures FlatRun(h, bytes, At(p, x), k) ==
      Target(RunNode(h, IfElse(cc, thn, els), x), p + |NodeBytes(IfElse(cc, thn, els))|)
    decreases IfElse(cc, thn, els), 0
  {
    hide Enc, Do, FlatRun, Placed, NodeBytes;
    var t, e := Assemble(thn), Assemble(els);
    var j, over := Jcc(cc, W32(|e| + JMP_LEN)), Jmp(W32(|t|));
    IfElsePlaced(bytes, p, cc, thn, els);
    JumpTo(h, bytes, p, j, x);
    if Cond(cc, x.flags.value) {
      var m := Sim(h, bytes, p + JCC_LEN + |e| + JMP_LEN, thn, x);
      k := 1 + m;
      FlatAdd(h, bytes, At(p, x), 1, m);
    } else {
      var m := Sim(h, bytes, p + JCC_LEN, els, x);
      FlatAdd(h, bytes, At(p, x), 1, m);
      k := 1 + m;
      var o := Run(h, els, x);
      if o.Go? {
        JumpTo(h, bytes, p + JCC_LEN + |e|, over, o.x);
        FlatAdd(h, bytes, At(p, x), 1 + m, 1);
        k := 1 + m + 1;
      }
    }
  }

  /** The flat byte program runs like the structured one: every displacement lands on the first byte
      of the block it is meant for. */
  lemma {:induction false} Sim<W>(h: Host<W>, bytes: seq<u8>, p: nat, code: seq<Node>, x: X<W>) returns (k: nat)
    requires |x.r| == 16 && CodeOk(code) && Placed(bytes, p, Assemble(code)) && !Run(h, code, x).Stuck?
    ensures FlatRun(h, bytes, At(p, x), k) == Target(Run(h, code, x), p + |Assemble(code)|)
    decreases code, 0
  {
    hide Enc, Do, FlatRun, NodeBytes, RunNode, NodeOk;
    if code == [] {
      k := 0;
    } else {
      PlacedParts(bytes, p, NodeBytes(code[0]), Assemble(code[1..]));
      var first := RunNode(h, code[0], x);
      k := SimNode(h, bytes, p, code[0], x);
      if first.Go? {
        var m := Sim(h, bytes, p + |NodeBytes(code[0])|, code[1..], first.x);
        FlatAdd(h, bytes, At(p, x), k, m);
        k := k + m;
      }
    }
  }
}
