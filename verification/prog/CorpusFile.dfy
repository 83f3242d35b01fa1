/** Whole programs as corpus text, over a table of call descriptions (crates/fs-cli/src/main.rs). */
module CorpusFile {
  import opened Words
  import opened Typed
  import opened Corpus

  datatype Entry = Entry(name: string, desc: Desc)

  /** Names are unique and free of whitespace. */
  ghost predicate TableOk(table: seq<Entry>)
  {
    (forall i | 0 <= i < |table| :: Plain(table[i].name)) && forall i, j | 0 <= i < j < |table| :: table[i].name != table[j].name
  }

  /** A call by its place in the table. */
  datatype Named = Named(k: nat, args: seq<ArgValue>)

  ghost predicate ProgOk(table: seq<Entry>, p: seq<Named>)
  {
    |p| < TWO64 && forall i | 0 <= i < |p| :: CallNarrow(table, p[i])
  }

  ghost predicate CallNarrow(table: seq<Entry>, c: Named)
  {
    c.k < |table| && |c.args| < TWO64 && forall j | 0 <= j < |c.args| :: Narrow(c.args[j])
  }

  function AsProg(table: seq<Entry>, p: seq<Named>): Prog
    requires forall i | 0 <= i < |p| :: p[i].k < |table|
  {
    seq(|p|, i requires 0 <= i < |p| => Call(table[p[i].k].desc, p[i].args))
  }

  // ----- writing -----

  function EncArgs(args: seq<ArgValue>): Tokens { if args == [] then [] else Enc(args[0]) + EncArgs(args[1..]) }

  function EncCall(table: seq<Entry>, c: Named): Tokens
    requires c.k < |table|
  {
    ["CALL", table[c.k].name, Dec(|c.args|)] + EncArgs(c.args)
  }

  function EncCalls(table: seq<Entry>, p: seq<Named>): Tokens
    requires forall i | 0 <= i < |p| :: p[i].k < |table|
  {
    if p == [] then [] else EncCall(table, p[0]) + EncCalls(table, p[1..])
  }

  function EncProg(table: seq<Entry>, p: seq<Named>): Tokens
    requires forall i | 0 <= i < |p| :: p[i].k < |table|
  {
    ["FSCORPUS1", Dec(|p|)] + EncCalls(table, p)
  }

  lemma MoreArgs(toks: Tokens, args: seq<ArgValue>, j: nat)
    requires j < |args|
    ensures toks + Enc(args[j]) + EncArgs(args[j + 1..]) == toks + EncArgs(args[j..])
  {
    hide Enc;
    assert args[j..][1..] == args[j + 1..];
  }

  method AppendArgs(toks: Tokens, args: seq<ArgValue>) returns (r: Tokens)
    ensures r == toks + EncArgs(args)
  {
    hide Enc, EncArgs;
    r := toks;
    assert args[0..] == args;
    for j := 0 to |args|
      invariant r + EncArgs(args[j..]) == toks + EncArgs(args)
    {
      MoreArgs(r, args, j);
      r := r + Enc(args[j]);
    }
    NoArgs();
    assert args[|args|..] == [] && r + [] == r;
  }

  lemma NoArgs()
    ensures EncArgs([]) == []
  {
  }

  lemma MoreCalls(table: seq<Entry>, toks: Tokens, p: seq<Named>, i: nat)
    requires i < |p| && forall x | 0 <= x < |p| :: p[x].k < |table|
    ensures toks + ["CALL", table[p[i].k].name, Dec(|p[i].args|)] + EncArgs(p[i].args) + EncCalls(table, p[i + 1..]) == toks + EncCalls(table, p[i..])
  {
    hide EncArgs, Dec, EncCalls;
    var head, args, more := ["CALL", table[p[i].k].name, Dec(|p[i].args|)], EncArgs(p[i].args), EncCalls(table, p[i + 1..]);
    FirstCall(table, p, i);
    Regroup(toks, head, args, more);
  }

  lemma FirstCall(table: seq<Entry>, p: seq<Named>, i: nat)
    requires i < |p| && forall x | 0 <= x < |p| :: p[x].k < |table|
    ensures EncCalls(table, p[i..]) == EncCall(table, p[i]) + EncCalls(table, p[i + 1..])
  {
    hide EncCall;
    assert p[i..][1..] == p[i + 1..];
  }

  lemma Regroup(a: Tokens, b: Tokens, c: Tokens, d: Tokens)
    ensures a + b + c + d == a + (b + c + d)
  {
  }

  lemma NoCalls(table: seq<Entry>)
    ensures EncCalls(table, []) == []
  {
  }

  method SerializeProg(table: seq<Entry>, p: seq<Named>) returns (text: string)
    requires forall i | 0 <= i < |p| :: p[i].k < |table|
    ensures text == Join(EncProg(table, p))
  {
    hide EncArgs, EncCalls, EncCall, Dec, Join;
    var toks: Tokens := ["FSCORPUS1", Dec(|p|)];
    assert p[0..] == p;
    for i := 0 to |p|
      invariant toks + EncCalls(table, p[i..]) == EncProg(table, p)
    {
      MoreCalls(table, toks, p, i);
      toks := toks + ["CALL", table[p[i].k].name, Dec(|p[i].args|)];
      toks := AppendArgs(toks, p[i].args);
    }
    NoCalls(table);
    assert p[|p|..] == [] && toks + [] == toks;
    text := Join(toks);
  }

  // ----- reading -----

  /** The first entry of that name. */
  function Find(table: seq<Entry>, name: string): (k: Option<nat>)
    ensures k.Some? ==> k.value < |table| && table[k.value].name == name
    ensures k.None? ==> forall i | 0 <= i < |table| :: table[i].name != name
  {
    if table == [] then None
    else
      var r := Find(table[..|table| - 1], name);
      if r.Some? then r else if table[|table| - 1].name == name then Some(|table| - 1) else None
  }

  function DecCall(table: seq<Entry>, t: Tokens): (r: Option<(Named, Tokens)>)
    ensures r.Some? ==> |r.value.1| < |t| && r.value.0.k < |table|
  {
    if |t| < 3 || t[0] != "CALL" then None
    else
      var k, n := Find(table, t[1]), ParseNat(t[2], TWO64);
      if k.None? || n.None? then None
      else
        var r := DecMany(t[3..], n.value);
        if r.None? then None else Some((Named(k.value, r.value.0), r.value.1))
  }

  function DecCalls(table: seq<Entry>, t: Tokens, n: nat): (r: Option<seq<Named>>)
    ensures r.Some? ==> |r.value| == n && forall i | 0 <= i < n :: r.value[i].k < |table|
    decreases n
  {
    if n == 0 then Some([])
    else
      var c := DecCall(table, t);
      if c.None? then None
      else
        var r := DecCalls(table, c.value.1, n - 1);
        if r.None? then None else Some([c.value.0] + r.value)
  }

  function DecProg(table: seq<Entry>, parents: Parents, t: Tokens): (r: Option<seq<Named>>)
    ensures r.Some? ==> (forall i | 0 <= i < |r.value| :: r.value[i].k < |table|) && WellFormed(parents, AsProg(table, r.value))
  {
    if |t| < 2 || t[0] != "FSCORPUS1" then None
    else
      var n := ParseNat(t[1], TWO64);
      if n.None? then None
      else
        var r := DecCalls(table, t[2..], n.value);
        if r.None? || !WellFormed(parents, AsProg(table, r.value)) then None else r
  }

  /** `deserialize_prog`: `None` on any malformed token, unknown name or ill-formed program. */
  method DeserializeProg(table: seq<Entry>, parents: Parents, text: string) returns (r: Option<seq<Named>>)
    ensures r == DecProg(table, parents, Split(text, ""))
  {
    hide DecMany, Find, ParseNat, WellFormed;
    var t := Split(text, "");
    if |t| < 2 || t[0] != "FSCORPUS1" { return None; }
    var n := ParseNat(t[1], TWO64);
    if n.None? { return None; }
    var rest := t[2..];
    var calls: seq<Named> := [];
    BehindNone(DecCalls(table, rest, n.value));
    for i := 0 to n.value
      invariant forall x | 0 <= x < |calls| :: calls[x].k < |table|
      invariant |calls| == i && DecCalls(table, t[2..], n.value) == Behind(calls, DecCalls(table, rest, n.value - i))
    {
      var c := DecCall(table, rest);
      if c.None? { return None; }
      BehindMore(calls, c.value.0, DecCalls(table, c.value.1, n.value - i - 1));
      calls, rest := calls + [c.value.0], c.value.1;
    }
    assert calls + [] == calls;
    r := if WellFormed(parents, AsProg(table, calls)) then Some(calls) else None;
  }

  function Behind(a: seq<Named>, r: Option<seq<Named>>): Option<seq<Named>> { if r.Some? then Some(a + r.value) else None }

  lemma BehindMore(a: seq<Named>, c: Named, r: Option<seq<Named>>)
    ensures Behind(a, Behind([c], r)) == Behind(a + [c], r)
  {
    assert r.Some? ==> a + ([c] + r.value) == a + [c] + r.value;
  }

  lemma BehindNone(r: Option<seq<Named>>)
    ensures Behind([], r) == r
  {
    assert r.Some? ==> [] + r.value == r.value;
  }

  // ----- round trip -----

  lemma {:induction false} ArgsBack(args: seq<ArgValue>, rest: Tokens)
    requires forall j | 0 <= j < |args| :: Narrow(args[j])
    ensures DecMany(EncArgs(args) + rest, |args|) == Some((args, rest))
    decreases |args|
  {
    hide Enc, DecArg, Narrow;
    if args == [] {
      assert EncArgs(args) + rest == rest;
    } else {
      assert EncArgs(args) + rest == Enc(args[0]) + (EncArgs(args[1..]) + rest);
      ArgBack(args[0], EncArgs(args[1..]) + rest);
      ArgsBack(args[1..], rest);
      assert [args[0]] + args[1..] == args;
    }
  }

  lemma CallBack(table: seq<Entry>, c: Named, rest: Tokens)
    requires TableOk(table) && CallNarrow(table, c)
    ensures DecCall(table, EncCall(table, c) + rest) == Some((c, rest))
  {
    hide Enc, DecMany, Find, ParseNat, Dec, EncArgs;
    var t := EncCall(table, c) + rest;
    var name := table[c.k].name;
    assert t[0] == "CALL" && t[1] == name && t[2] == Dec(|c.args|) && t[3..] == EncArgs(c.args) + rest;
    NumberBack(|c.args|, TWO64);
    ArgsBack(c.args, rest);
    assert Find(table, name).Some?;
    var k := Find(table, name).value;
    NameOnce(table, k, c.k);
  }

  lemma NameOnce(table: seq<Entry>, i: nat, j: nat)
    requires TableOk(table) && i < |table| && j < |table| && table[i].name == table[j].name
    ensures i == j
  {
  }

  lemma {:induction false} CallsBack(table: seq<Entry>, p: seq<Named>)
    requires TableOk(table) && forall i | 0 <= i < |p| :: CallNarrow(table, p[i])
    ensures (forall i | 0 <= i < |p| :: p[i].k < |table|) && DecCalls(table, EncCalls(table, p), |p|) == Some(p)
    decreases |p|
  {
    hide DecCall, EncCall, CallNarrow, TableOk;
    NarrowK(table, p);
    if p != [] {
      assert CallNarrow(table, p[0]);
      CallBack(table, p[0], EncCalls(table, p[1..]));
      CallsBack(table, p[1..]);
      assert [p[0]] + p[1..] == p;
    }
  }

  lemma NarrowK(table: seq<Entry>, p: seq<Named>)
    requires forall i | 0 <= i < |p| :: CallNarrow(table, p[i])
    ensures forall i | 0 <= i < |p| :: p[i].k < |table|
  {
    forall i | 0 <= i < |p| ensures p[i].k < |table| {
      assert CallNarrow(table, p[i]);
    }
  }

  lemma {:induction false} ArgsPlain(args: seq<ArgValue>)
    requires forall j | 0 <= j < |args| :: Narrow(args[j])
    ensures forall x | 0 <= x < |EncArgs(args)| :: Plain(EncArgs(args)[x])
    decreases |args|
  {
    hide Enc, Narrow, Plain;
    if args != [] {
      EncPlain(args[0]);
      ArgsPlain(args[1..]);
    }
  }

  lemma {:induction false} CallsPlain(table: seq<Entry>, p: seq<Named>)
    requires TableOk(table) && forall i | 0 <= i < |p| :: CallNarrow(table, p[i])
    ensures (forall i | 0 <= i < |p| :: p[i].k < |table|) && forall x | 0 <= x < |EncCalls(table, p)| :: Plain(EncCalls(table, p)[x])
    decreases |p|
  {
    hide Plain, Dec, EncArgs;
    NarrowK(table, p);
    if p != [] {
      assert CallNarrow(table, p[0]);
      ArgsPlain(p[0].args);
      NumberPlain(|p[0].args|);
      MarkersPlain();
      CallsPlain(table, p[1..]);
    }
  }

  lemma NumberPlain(n: nat)
    ensures Plain(Dec(n))
  {
    DecBack(n);
  }

  lemma MarkersPlain()
    ensures Plain("CALL") && Plain("FSCORPUS1")
  {
  }

  /** Reading back what was written gives the program, for every well-formed program over the table. */
  lemma CorpusRoundTrip(table: seq<Entry>, parents: Parents, p: seq<Named>)
    requires TableOk(table) && ProgOk(table, p)
    requires (forall i | 0 <= i < |p| :: p[i].k < |table|) && WellFormed(parents, AsProg(table, p))
    ensures DecProg(table, parents, Split(Join(EncProg(table, p)), "")) == Some(p)
  {
    hide Plain, Dec, EncCalls, DecCalls, WellFormed, ParseNat, Join, Split;
    var t := EncProg(table, p);
    CallsPlain(table, p);
    NumberPlain(|p|);
    MarkersPlain();
    JoinBack(t);
    NumberBack(|p|, TWO64);
    CallsBack(table, p);
    assert t[0] == "FSCORPUS1" && t[1] == Dec(|p|) && t[2..] == EncCalls(table, p);
  }
}
