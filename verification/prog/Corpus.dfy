/** The corpus text form (crates/fs-cli/src/main.rs): a pre-order token stream, joined by spaces. */
module Corpus {
  import opened Words
  import opened Typed

  // ----- numbers as text -----

  function Digit(d: nat): char
    requires d < 16
  {
    if d < 10 then ('0' as int + d) as char else ('a' as int + d - 10) as char
  }

  function DigitOf(c: char): Option<nat>
  {
    if '0' <= c <= '9' then Some(c as int - '0' as int)
    else if 'a' <= c <= 'f' then Some(c as int - 'a' as int + 10)
    else if 'A' <= c <= 'F' then Some(c as int - 'A' as int + 10)
    else None
  }

  lemma DigitBack(d: nat)
    requires d < 16
    ensures DigitOf(Digit(d)) == Some(d) && Digit(d) != '.' && Digit(d) != '+' && Digit(d) != '-' && !IsSpace(Digit(d))
  {
  }

  function Dec(n: nat): (s: string)
    ensures s != ""
  {
    if n < 10 then [Digit(n)] else Dec(n / 10) + [Digit(n % 10)]
  }

  function ParseDigits(s: string): Option<nat>
  {
    if s == "" then None
    else
      var d := DigitOf(s[|s| - 1]);
      if d.None? || d.value >= 10 then None
      else if |s| == 1 then d
      else
        var r := ParseDigits(s[..|s| - 1]);
        if r.None? then None else Some(10 * r.value + d.value)
  }

  /** `parse` of an unsigned type: an optional plus sign, then digits, below the type's bound. */
  function ParseNat(s: string, bound: nat): Option<nat>
  {
    var r := ParseDigits(if s != "" && s[0] == '+' then s[1..] else s);
    if r.Some? && r.value < bound then r else None
  }

  function Magnitude(n: int): nat { if n < 0 then -n else n }

  function DecSigned(n: i64): string { if n < 0 then "-" + Dec(Magnitude(n)) else Dec(n) }

  function Negated(n: int): int { -n }

  function ParseSigned(s: string): Option<i64>
  {
    if s != "" && s[0] == '-' then
      var r := ParseDigits(s[1..]);
      if r.Some? && r.value <= 0x8000_0000_0000_0000 then Some(Negated(r.value)) else None
    else ParseNat(s, 0x8000_0000_0000_0000)
  }

  lemma {:induction false} DecBack(n: nat)
    ensures ParseDigits(Dec(n)) == Some(n)
    ensures Dec(n)[0] != '+' && Dec(n)[0] != '-' && forall i | 0 <= i < |Dec(n)| :: Dec(n)[i] != '.' && !IsSpace(Dec(n)[i])
  {
    hide Digit, DigitOf, IsSpace;
    DigitBack(n % 10);
    var s, last := Dec(n), Digit(n % 10);
    if n >= 10 {
      DecBack(n / 10);
      var head := Dec(n / 10);
      assert s == head + [last] && s[..|s| - 1] == head && s[0] == head[0];
    } else {
      assert s == [last];
    }
  }

  lemma SignPlain()
    ensures !IsSpace('-') && !IsSpace('+') && !IsSpace('.')
  {
  }

  lemma SignedBack(n: i64)
    ensures ParseSigned(DecSigned(n)) == Some(n)
    ensures forall i | 0 <= i < |DecSigned(n)| :: !IsSpace(DecSigned(n)[i])
  {
    hide Dec, ParseDigits, IsSpace;
    DecBack(Magnitude(n));
    if n < 0 {
      assert DecSigned(n)[1..] == Dec(Magnitude(n));
      assert !IsSpace('-') by { SignPlain(); }
    }
  }

  function Hex(b: seq<u8>): string
  {
    if b == [] then "" else [Digit(b[0] / 16), Digit(b[0] % 16)] + Hex(b[1..])
  }

  function ParseHex(s: string): Option<seq<u8>>
  {
    if s == "" then Some([])
    else if |s| == 1 then None
    else
      var lo, rest := DigitOf(s[1]), ParseHex(s[2..]);
      var hi := if s[0] == '+' then Some(0) else DigitOf(s[0]);
      if hi.None? || lo.None? || rest.None? then None else Some([16 * hi.value + lo.value] + rest.value)
  }

  lemma {:induction false} HexBack(b: seq<u8>)
    ensures ParseHex(Hex(b)) == Some(b) && (b != [] ==> Hex(b) != "-" && Hex(b) != "")
    ensures forall i | 0 <= i < |Hex(b)| :: !IsSpace(Hex(b)[i])
    decreases |b|
  {
    if b != [] {
      hide Digit, DigitOf, IsSpace;
      DigitBack(b[0] / 16);
      DigitBack(b[0] % 16);
      HexBack(b[1..]);
      var s, rest := Hex(b), Hex(b[1..]);
      assert s == [Digit(b[0] / 16), Digit(b[0] % 16)] + rest && s[2..] == rest;
      assert [b[0]] + b[1..] == b;
    }
  }

  // ----- values -----

  type Tokens = seq<string>

  function Enc(v: ArgValue): (t: Tokens)
    ensures t != []
    decreases v, 0
  {
    match v
    case Imm(n) => ["i" + Dec(n)]
    case ResV(Seed(s)) => ["s" + DecSigned(s)]
    case ResV(Produced(c, slot)) => ["r" + Dec(c) + "." + Dec(slot)]
    case Bytes(b) => ["b" + if b == [] then "-" else Hex(b)]
    case PtrV(inner) => ["p"] + Enc(inner)
    case StructV(vals) => ["t" + Dec(|vals|)] + EncFields(v, |vals|)
  }

  /** The first `k` fields of a struct. */
  function EncFields(v: ArgValue, k: nat): Tokens
    requires v.StructV? && k <= |v.vals|
    decreases v, 0, k
  {
    if k == 0 then [] else EncFields(v, k - 1) + Enc(v.vals[k - 1])
  }

  function SplitDot(s: string): Option<(string, string)>
  {
    if s == "" then None
    else if s[0] == '.' then Some(("", s[1..]))
    else
      var r := SplitDot(s[1..]);
      if r.None? then None else Some(([s[0]] + r.value.0, r.value.1))
  }

  /** One token that stands for a whole value, or announces `fields` more. */
  datatype Head = Leaf(v: ArgValue) | Pointer | Fields(n: nat)

  function DecHead(tok: string): Option<Head>
  {
    if tok == "" then None
    else
      var tag, rest := tok[0], tok[1..];
      if tag == 'i' then
        var n := ParseNat(rest, TWO64);
        if n.None? then None else Some(Leaf(Imm(n.value)))
      else if tag == 's' then
        var n := ParseSigned(rest);
        if n.None? then None else Some(Leaf(ResV(Seed(n.value))))
      else if tag == 'r' then
        match SplitDot(rest)
        case None => None
        case Some((c, slot)) =>
          var x, y := ParseNat(c, 0x1_0000), ParseNat(slot, 0x100);
          if x.None? || y.None? then None else Some(Leaf(ResV(Produced(x.value, y.value))))
      else if tag == 'b' then
        if rest == "-" then Some(Leaf(Bytes([])))
        else
          var b := ParseHex(rest);
          if b.None? then None else Some(Leaf(Bytes(b.value)))
      else if tag == 'p' then Some(Pointer)
      else if tag == 't' then
        var n := ParseNat(rest, TWO64);
        if n.None? then None else Some(Fields(n.value))
      else None
  }

  function DecArg(t: Tokens): (r: Option<(ArgValue, Tokens)>)
    ensures r.Some? ==> |r.value.1| < |t|
    decreases |t|, 0
  {
    if t == [] then None
    else
      match DecHead(t[0])
      case None => None
      case Some(Leaf(v)) => Some((v, t[1..]))
      case Some(Pointer) =>
        var r := DecArg(t[1..]);
        if r.None? then None else Some((PtrV(r.value.0), r.value.1))
      case Some(Fields(n)) =>
        var r := DecMany(t[1..], n);
        if r.None? then None else Some((StructV(r.value.0), r.value.1))
  }

  function DecMany(t: Tokens, n: nat): (r: Option<(seq<ArgValue>, Tokens)>)
    ensures r.Some? ==> |r.value.0| == n && |r.value.1| <= |t|
    decreases |t|, 1, n
  {
    if n == 0 then Some(([], t))
    else
      match DecArg(t)
      case None => None
      case Some((v, t1)) =>
        var r := DecMany(t1, n - 1);
        if r.None? then None else Some(([v] + r.value.0, r.value.1))
  }

  /** References within the widths of their fields; fields countable. */
  predicate Narrow(v: ArgValue)
    decreases v
  {
    match v
    case ResV(Produced(c, slot)) => c < 0x1_0000 && slot < 0x100
    case PtrV(inner) => Narrow(inner)
    case StructV(vals) => |vals| < TWO64 && forall i | 0 <= i < |vals| :: Narrow(vals[i])
    case _ => true
  }

  lemma {:induction false} DotBack(a: string, b: string)
    requires forall i | 0 <= i < |a| :: a[i] != '.'
    ensures SplitDot(a + "." + b) == Some((a, b))
    decreases |a|
  {
    var s := a + "." + b;
    if a == "" {
      assert s[0] == '.' && s[1..] == b;
    } else {
      assert s[0] == a[0] && s[1..] == a[1..] + "." + b;
      DotBack(a[1..], b);
      assert [a[0]] + a[1..] == a;
    }
  }

  predicate Plain(s: string) { s != "" && forall i | 0 <= i < |s| :: !IsSpace(s[i]) }

  lemma NumberBack(n: nat, bound: nat)
    requires n < bound
    ensures ParseNat(Dec(n), bound) == Some(n)
  {
    hide Dec, ParseDigits;
    DecBack(n);
  }

  lemma Tagged(tag: char, rest: string)
    requires !IsSpace(tag) && forall i | 0 <= i < |rest| :: !IsSpace(rest[i])
    ensures var t := [tag] + rest; t[0] == tag && t[1..] == rest && Plain(t)
  {
    var t := [tag] + rest;
    forall i | 0 <= i < |t| ensures !IsSpace(t[i]) {
      assert i > 0 ==> t[i] == rest[i - 1];
    }
  }

  lemma RefBack(c: nat, slot: nat)
    requires c < 0x1_0000 && slot < 0x100
    ensures SplitDot(Dec(c) + "." + Dec(slot)) == Some((Dec(c), Dec(slot)))
    ensures forall i | 0 <= i < |Dec(c) + "." + Dec(slot)| :: !IsSpace((Dec(c) + "." + Dec(slot))[i])
  {
    hide Dec, ParseDigits, SplitDot, IsSpace;
    DecBack(c);
    DecBack(slot);
    DotBack(Dec(c), Dec(slot));
    SignPlain();
    var s := Dec(c) + "." + Dec(slot);
    forall i | 0 <= i < |s| ensures !IsSpace(s[i]) {
      if i < |Dec(c)| {
        assert s[i] == Dec(c)[i];
      } else if i > |Dec(c)| {
        assert s[i] == Dec(slot)[i - |Dec(c)| - 1];
      }
    }
  }

  lemma TagsPlain()
    ensures !IsSpace('i') && !IsSpace('s') && !IsSpace('r') && !IsSpace('b') && !IsSpace('p') && !IsSpace('t') && !IsSpace('-')
  {
  }

  lemma HeadBack(v: ArgValue)
    requires Narrow(v)
    ensures DecHead(Enc(v)[0]) == Some(match v case PtrV(_) => Pointer case StructV(vals) => Fields(|vals|) case _ => Leaf(v))
    ensures Plain(Enc(v)[0])
  {
    hide Dec, ParseDigits, ParseNat, ParseSigned, DecSigned, SplitDot, IsSpace, Hex, ParseHex;
    TagsPlain();
    match v {
      case Imm(n) =>
        DecBack(n);
        NumberBack(n, TWO64);
        Tagged('i', Dec(n));
      case ResV(Seed(s)) =>
        SignedBack(s);
        Tagged('s', DecSigned(s));
      case ResV(Produced(c, slot)) =>
        RefBack(c, slot);
        NumberBack(c, 0x1_0000);
        NumberBack(slot, 0x100);
        Tagged('r', Dec(c) + "." + Dec(slot));
        assert "r" + Dec(c) + "." + Dec(slot) == "r" + (Dec(c) + "." + Dec(slot));
      case Bytes(b) =>
        HexBack(b);
        Tagged('b', if b == [] then "-" else Hex(b));
      case PtrV(_) => Tagged('p', "");
      case StructV(vals) =>
        DecBack(|vals|);
        NumberBack(|vals|, TWO64);
        Tagged('t', Dec(|vals|));
    }
  }

  /** Decoding what was encoded, followed by anything, gives the value back and exactly that rest. */
  lemma {:induction false} ArgBack(v: ArgValue, rest: Tokens)
    requires Narrow(v)
    ensures DecArg(Enc(v) + rest) == Some((v, rest))
    decreases v, 1
  {
    hide DecHead;
    HeadBack(v);
    var t := Enc(v) + rest;
    assert t[0] == Enc(v)[0];
    match v {
      case PtrV(inner) =>
        assert t[1..] == Enc(inner) + rest;
        ArgBack(inner, rest);
      case StructV(vals) =>
        assert t[1..] == EncFields(v, |vals|) + rest;
        FieldsBack(v, 0, rest);
        assert vals[0..] == vals && FieldsFrom(v, 0) == EncFields(v, |vals|);
      case _ =>
        assert t[1..] == rest;
    }
  }

  /** Fields `k` and on. */
  function FieldsFrom(v: ArgValue, k: nat): Tokens
    requires v.StructV? && k <= |v.vals|
  {
    EncFields(v, |v.vals|)[FieldsLen(v, k)..]
  }

  function FieldsLen(v: ArgValue, k: nat): (n: nat)
    requires v.StructV? && k <= |v.vals|
    ensures n <= |EncFields(v, |v.vals|)|
  {
    PrefixOf(v, k, |v.vals|);
    |EncFields(v, k)|
  }

  lemma {:induction false} PrefixOf(v: ArgValue, k: nat, m: nat)
    requires v.StructV? && k <= m <= |v.vals|
    ensures EncFields(v, k) <= EncFields(v, m)
    decreases m - k
  {
    if k < m {
      PrefixOf(v, k, m - 1);
    }
  }

  lemma FieldsNext(v: ArgValue, k: nat)
    requires v.StructV? && k < |v.vals|
    ensures FieldsFrom(v, k) == Enc(v.vals[k]) + FieldsFrom(v, k + 1)
  {
    hide Enc;
    PrefixOf(v, k + 1, |v.vals|);
    var all := EncFields(v, |v.vals|);
    assert all[..FieldsLen(v, k + 1)] == EncFields(v, k + 1);
  }

  lemma ManyNext(t: Tokens, v: ArgValue, t1: Tokens, n: nat)
    requires n > 0 && DecArg(t) == Some((v, t1)) && DecMany(t1, n - 1).Some?
    ensures DecMany(t, n) == Some(([v] + DecMany(t1, n - 1).value.0, DecMany(t1, n - 1).value.1))
  {
    hide DecArg;
  }

  lemma NoFields(v: ArgValue, rest: Tokens)
    requires v.StructV?
    ensures DecMany(FieldsFrom(v, |v.vals|) + rest, 0) == Some(([], rest))
  {
    hide EncFields;
    assert FieldsFrom(v, |v.vals|) + rest == rest;
  }

  lemma {:induction false} FieldsBack(v: ArgValue, k: nat, rest: Tokens)
    requires v.StructV? && k <= |v.vals| && Narrow(v)
    ensures DecMany(FieldsFrom(v, k) + rest, |v.vals| - k) == Some((v.vals[k..], rest))
    decreases v, 0, |v.vals| - k
  {
    hide Enc, EncFields, DecArg, DecMany, FieldsFrom, FieldsLen;
    if k == |v.vals| {
      NoFields(v, rest);
      assert v.vals[k..] == [];
    } else {
      var after := FieldsFrom(v, k + 1) + rest;
      FieldsNext(v, k);
      Regroup(Enc(v.vals[k]), FieldsFrom(v, k + 1), rest);
      ArgBack(v.vals[k], after);
      FieldsBack(v, k + 1, rest);
      ManyNext(FieldsFrom(v, k) + rest, v.vals[k], after, |v.vals| - k);
      assert v.vals[k..] == [v.vals[k]] + v.vals[k + 1..];
    }
  }

  lemma Regroup(a: Tokens, b: Tokens, c: Tokens)
    ensures (a + b) + c == a + (b + c)
  {
  }

  // ----- text -----

  predicate IsSpace(c: char) { c == ' ' || '\t' <= c <= '\r' }

  function Join(t: Tokens): string
  {
    if t == [] then "" else if |t| == 1 then t[0] else t[0] + " " + Join(t[1..])
  }

  /** `split_whitespace`, with the token being read. */
  function Split(s: string, cur: string): Tokens
    decreases |s|
  {
    if s == "" then (if cur == "" then [] else [cur])
    else if IsSpace(s[0]) then (if cur == "" then [] else [cur]) + Split(s[1..], "")
    else Split(s[1..], cur + [s[0]])
  }

  lemma {:induction false} SplitToken(tok: string, cur: string, rest: string)
    requires (forall i | 0 <= i < |tok| :: !IsSpace(tok[i])) && cur + tok != ""
    ensures Split(tok + " " + rest, cur) == [cur + tok] + Split(rest, "")
    ensures Split(tok, cur) == [cur + tok]
    decreases |tok|
  {
    var s := tok + " " + rest;
    if tok == "" {
      assert s[0] == ' ' && s[1..] == rest && cur + tok == cur;
    } else {
      assert s[0] == tok[0] && s[1..] == tok[1..] + " " + rest;
      assert cur + [tok[0]] + tok[1..] == cur + tok;
      SplitToken(tok[1..], cur + [tok[0]], rest);
    }
  }

  lemma {:induction false} JoinBack(t: Tokens)
    requires forall i | 0 <= i < |t| :: Plain(t[i])
    ensures Split(Join(t), "") == t
    decreases |t|
  {
    if t != [] {
      assert "" + t[0] == t[0];
      SplitToken(t[0], "", if |t| == 1 then "" else Join(t[1..]));
      if |t| > 1 {
        JoinBack(t[1..]);
      }
    }
  }

  lemma {:induction false} EncPlain(v: ArgValue)
    requires Narrow(v)
    ensures forall i | 0 <= i < |Enc(v)| :: Plain(Enc(v)[i])
    decreases v, 1
  {
    hide Plain;
    HeadBack(v);
    match v {
      case PtrV(inner) => EncPlain(inner);
      case StructV(vals) => FieldsPlain(v, |vals|);
      case _ =>
    }
  }

  lemma {:induction false} FieldsPlain(v: ArgValue, k: nat)
    requires v.StructV? && k <= |v.vals| && Narrow(v)
    ensures forall i | 0 <= i < |EncFields(v, k)| :: Plain(EncFields(v, k)[i])
    decreases v, 0, k
  {
    hide Plain;
    if k > 0 {
      FieldsPlain(v, k - 1);
      EncPlain(v.vals[k - 1]);
    }
  }
}
