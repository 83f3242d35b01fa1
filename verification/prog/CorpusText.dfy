/** What the corpus text looks like (crates/fs-cli/src/main.rs): decimal and hexadecimal digits by value, and one
    program spelled out. */
module CorpusText {
  import opened Words
  import opened Typed
  import opened Corpus
  import opened CorpusFile

  predicate Decimal(c: char) { '0' <= c <= '9' }

  /** The number a string of decimal digits stands for. */
  function NumberOf(s: string): nat
    requires forall i | 0 <= i < |s| :: Decimal(s[i])
  {
    if s == "" then 0
    else
      assert Decimal(s[|s| - 1]);
      10 * NumberOf(s[..|s| - 1]) + (s[|s| - 1] as int - 48)
  }

  /** Numbers are written in decimal, without leading zeros. */
  lemma {:induction false} DecimalText(n: nat)
    ensures forall i | 0 <= i < |Dec(n)| :: Decimal(Dec(n)[i])
    ensures NumberOf(Dec(n)) == n && (Dec(n)[0] == '0' ==> Dec(n) == "0")
    decreases n
  {
    var s, last := Dec(n), Digit(n % 10);
    assert last as int == 48 + n % 10;
    if n >= 10 {
      DecimalText(n / 10);
      assert s == Dec(n / 10) + [last] && s[..|s| - 1] == Dec(n / 10);
      NotZero(n / 10);
    } else {
      assert s[..|s| - 1] == "";
    }
  }

  lemma NotZero(n: nat)
    requires n > 0
    ensures Dec(n) != "0"
  {
    hide Digit;
    if n >= 10 {
      assert |Dec(n)| >= 2;
    } else {
      assert Dec(n)[0] == Digit(n) != '0' by { DigitNotZero(n); }
    }
  }

  lemma DigitNotZero(n: nat)
    requires 0 < n < 10
    ensures Digit(n) != '0'
  {
  }

  /** Negative numbers carry a minus sign. */
  lemma SignedText(n: i64)
    ensures DecSigned(n) == if n < 0 then "-" + Dec(Negated(n)) else Dec(n)
  {
  }

  /** The value of a lower-case hexadecimal digit. */
  function HexValue(c: char): int { if c <= '9' then c as int - 48 else c as int - 87 }

  /** Two lower-case hexadecimal digits a byte, the higher half first. */
  lemma {:induction false} HexText(b: seq<u8>, i: nat)
    requires i < |b|
    ensures |Hex(b)| == 2 * |b|
    ensures var hi, lo := Hex(b)[2 * i], Hex(b)[2 * i + 1];
      && (Decimal(hi) || 'a' <= hi <= 'f') && (Decimal(lo) || 'a' <= lo <= 'f')
      && b[i] == 16 * HexValue(hi) + HexValue(lo)
    decreases |b|
  {
    HexLength(b);
    var first := [Digit(b[0] / 16), Digit(b[0] % 16)];
    assert Hex(b) == first + Hex(b[1..]);
    DigitValue(b[0] / 16);
    DigitValue(b[0] % 16);
    hide Digit;
    if i > 0 {
      HexText(b[1..], i - 1);
      assert Hex(b)[2 * i] == Hex(b[1..])[2 * (i - 1)] && Hex(b)[2 * i + 1] == Hex(b[1..])[2 * (i - 1) + 1];
    }
  }

  lemma DigitValue(d: nat)
    requires d < 16
    ensures (Decimal(Digit(d)) || 'a' <= Digit(d) <= 'f') && HexValue(Digit(d)) == d
  {
  }

  lemma {:induction false} HexLength(b: seq<u8>)
    ensures |Hex(b)| == 2 * |b|
    decreases |b|
  {
    if b != [] {
      HexLength(b[1..]);
    }
  }

  /** Every kind of argument, as it is written. */
  lemma LeafText(n: u64, s: i64, c: nat, slot: nat, b: seq<u8>)
    ensures Enc(Imm(n)) == ["i" + Dec(n)] && Enc(ResV(Seed(s))) == ["s" + DecSigned(s)]
    ensures Enc(ResV(Produced(c, slot))) == ["r" + Dec(c) + "." + Dec(slot)]
    ensures Enc(Bytes(b)) == if b == [] then ["b-"] else ["b" + Hex(b)]
  {
    hide Dec, DecSigned, Hex;
    assert "b" + "-" == "b-";
  }

  lemma PointerText(v: ArgValue)
    ensures Enc(PtrV(v)) == ["p"] + Enc(v)
  {
    hide Dec, DecSigned, Hex;
  }

  lemma StructText(v: ArgValue, w: ArgValue)
    ensures Enc(StructV([])) == ["t" + Dec(0)]
    ensures Enc(StructV([v, w])) == ["t" + Dec(2)] + Enc(v) + Enc(w)
  {
    hide Dec, DecSigned, Hex, Enc;
    TwoFields(StructV([v, w]));
    OfStruct(StructV([v, w]));
    OfStruct(StructV([]));
    assert EncFields(StructV([]), 0) == [];
    Joined(["t" + Dec(2)], Enc(v), Enc(w));
  }

  lemma TwoFields(x: ArgValue)
    requires x.StructV? && |x.vals| == 2
    ensures EncFields(x, 2) == Enc(x.vals[0]) + Enc(x.vals[1])
  {
    hide Enc;
    assert EncFields(x, 1) == [] + Enc(x.vals[0]) == Enc(x.vals[0]);
  }

  lemma OfStruct(x: ArgValue)
    requires x.StructV?
    ensures Enc(x) == ["t" + Dec(|x.vals|)] + EncFields(x, |x.vals|)
  {
    hide Dec, DecSigned, Hex;
  }

  lemma Joined(a: Tokens, b: Tokens, c: Tokens)
    ensures a + (b + c) == a + b + c
  {
  }

  /** A program of one call, spelled out. */
  lemma ProgramText(name: string, d: Desc, v: ArgValue)
    ensures EncProg([Entry(name, d)], [Named(0, [v])]) == ["FSCORPUS1", Dec(1), "CALL", name, Dec(1)] + Enc(v)
  {
    hide Enc, Dec;
    var table, p := [Entry(name, d)], [Named(0, [v])];
    assert p[1..] == [] && [v][1..] == [];
    assert EncArgs([v]) == Enc(v) + EncArgs([]);
    assert EncCalls(table, p) == EncCall(table, p[0]) + EncCalls(table, []);
    assert EncCall(table, p[0]) == ["CALL", name, Dec(1)] + Enc(v);
  }
}
