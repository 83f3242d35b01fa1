/** Fixed-width words as bounded integers, with the wrap-around written out. */
module Words {
  const TWO32: int := 0x1_0000_0000
  const TWO64: int := 0x1_0000_0000_0000_0000

  type u8 = x: int | 0 <= x < 0x100
  type u16 = x: int | 0 <= x < 0x1_0000
  type u32 = x: int | 0 <= x < 0x1_0000_0000
  type u64 = x: int | 0 <= x < 0x1_0000_0000_0000_0000

  datatype Option<+T> = None | Some(value: T)

  datatype Result<+T, +E> = Ok(value: T) | Err(error: E)

  function W32(x: int): u32 { x % TWO32 }

  function W64(x: int): u64 { x % TWO64 }

  /** The two's complement reading of a 32-bit word. */
  function Signed(x: u32): int { if x < 0x8000_0000 then x else x - TWO32 }

  /** Shifts, one bit at a time. */
  function Shl32(a: u32, n: nat): u32
    decreases n
  {
    if n == 0 then a else Shl32(W32(2 * a), n - 1)
  }

  function Shr32(a: u32, n: nat): u32
    decreases n
  {
    if n == 0 then a else Shr32(a / 2, n - 1)
  }

  /** Arithmetic shift: the sign bit is copied in. */
  function Sar32(a: u32, n: nat): u32
    decreases n
  {
    if n == 0 then a else Sar32(W32(Signed(a) / 2), n - 1)
  }

  datatype BitKind = BitAnd | BitOr | BitXor

  function Bit(k: BitKind, a: nat, b: nat): (r: nat)
  {
    match k
    case BitAnd => if a % 2 == 1 && b % 2 == 1 then 1 else 0
    case BitOr => if a % 2 == 1 || b % 2 == 1 then 1 else 0
    case BitXor => if a % 2 == b % 2 then 0 else 1
  }

  /** Bitwise combination of the low `n` bits. */
  function Bitwise(k: BitKind, a: nat, b: nat, n: nat): nat
  {
    if n == 0 then 0 else Bit(k, a, b) + 2 * Bitwise(k, a / 2, b / 2, n - 1)
  }

  function Bits32(k: BitKind, a: u32, b: u32): u32 { W32(Bitwise(k, a, b, 32)) }

  /** `n` bytes of `x`, least significant first. */
  function Le(x: nat, n: nat): (s: seq<u8>)
    ensures |s| == n
  {
    if n == 0 then [] else [x % 256] + Le(x / 256, n - 1)
  }

  /** The number whose little-endian bytes are `s`. */
  function FromLe(s: seq<u8>): nat
  {
    if s == [] then 0 else s[0] + 256 * FromLe(s[1..])
  }

  function Pow256(n: nat): (r: nat)
    ensures r >= 1
  {
    if n == 0 then 1 else 256 * Pow256(n - 1)
  }

  lemma {:induction false} LeRoundTrip(x: nat, n: nat)
    requires x < Pow256(n)
    ensures FromLe(Le(x, n)) == x
  {
    if n > 0 {
      LeRoundTrip(x / 256, n - 1);
      assert Le(x, n)[1..] == Le(x / 256, n - 1);
    }
  }

  lemma LeWidths()
    ensures Pow256(1) == 0x100 && Pow256(2) == 0x1_0000 && Pow256(4) == TWO32 && Pow256(8) == TWO64
  {
    assert Pow256(3) == 256 * Pow256(2);
    assert Pow256(5) == 256 * Pow256(4);
    assert Pow256(6) == 256 * Pow256(5);
    assert Pow256(7) == 256 * Pow256(6);
  }

  // ----- what shifts and bitwise operations mean -----

  function Pow2(n: nat): (r: nat)
    ensures r >= 1
  {
    if n == 0 then 1 else 2 * Pow2(n - 1)
  }

  /** Bit `i` of a number. */
  function BitAt(x: nat, i: nat): (d: nat)
    ensures d < 2
  {
    x / Pow2(i) % 2
  }

  lemma SignedMeans(x: u32)
    ensures -0x8000_0000 <= Signed(x) < 0x8000_0000 && W32(Signed(x)) == x
  {
  }

  /** A remainder is determined by its range and its distance from a multiple. */
  lemma RemIs(x: int, m: nat, q: int, r: int)
    requires m > 0 && x == m * q + r && 0 <= r < m
    ensures x / m == q && x % m == r
  {
    var d := x / m - q;
    assert m * d == r - x % m;
    Multiples(m, d);
  }

  lemma Multiples(m: int, d: int)
    requires m > 0
    ensures d >= 1 ==> m * d >= m
    ensures d <= -1 ==> m * d <= -m
  {
    if d >= 1 {
      assert m * d == m + m * (d - 1);
    } else if d <= -1 {
      assert m * d == -m + m * (d + 1);
    }
  }

  lemma WrapTimes(x: nat, p: nat)
    ensures W32(x) * p % TWO32 == x * p % TWO32
  {
    var q, y := x / TWO32, W32(x) * p;
    var k, r := y / TWO32, y % TWO32;
    assert x * p == TWO32 * (q * p) + y;
    assert x * p == TWO32 * (q * p + k) + r;
    RemIs(x * p, TWO32, q * p + k, r);
  }

  lemma HalfThen(x: nat, p: nat)
    requires p > 0
    ensures x / 2 / p == x / (2 * p)
  {
    var h := x / 2;
    var q, r := h / p, h % p;
    assert x == (2 * p) * q + (2 * r + x % 2);
    RemIs(x, 2 * p, q, 2 * r + x % 2);
  }

  /** A left shift multiplies, modulo 2^32. */
  lemma {:induction false} ShlMeans(a: u32, n: nat)
    ensures Shl32(a, n) == a * Pow2(n) % TWO32
    decreases n
  {
    if n > 0 {
      var p := Pow2(n - 1);
      assert Shl32(a, n) == Shl32(W32(2 * a), n - 1) && Pow2(n) == 2 * p;
      ShlMeans(W32(2 * a), n - 1);
      hide Shl32, Pow2, W32;
      WrapTimes(2 * a, p);
      Doubled(a, p);
    } else {
      assert a * 1 == a;
    }
  }

  lemma Doubled(a: int, p: int)
    ensures 2 * a * p == a * (2 * p)
  {
  }

  /** A logical right shift divides. */
  lemma {:induction false} ShrMeans(a: u32, n: nat)
    ensures Shr32(a, n) == a / Pow2(n)
    decreases n
  {
    if n > 0 {
      ShrMeans(a / 2, n - 1);
      HalfThen(a, Pow2(n - 1));
    }
  }

  /** An arithmetic right shift divides the signed reading, rounding down. */
  lemma {:induction false} SarMeans(a: u32, n: nat)
    ensures var q := Signed(Sar32(a, n)); Pow2(n) * q <= Signed(a) < Pow2(n) * (q + 1)
    decreases n
  {
    if n > 0 {
      var h := Signed(a) / 2;
      assert Signed(W32(h)) == h by { HalfFits(a); }
      SarMeans(W32(h), n - 1);
      var q := Signed(Sar32(a, n));
      assert q == Signed(Sar32(W32(h), n - 1));
      hide Sar32, W32, Signed;
      DoubleFloor(Pow2(n - 1), q, h, Signed(a));
    }
  }

  lemma HalfFits(a: u32)
    ensures Signed(W32(Signed(a) / 2)) == Signed(a) / 2
  {
  }

  lemma DoubleFloor(p: nat, q: int, h: int, s: int)
    requires p * q <= h < p * (q + 1) && 2 * h <= s <= 2 * h + 1
    ensures (2 * p) * q <= s < (2 * p) * (q + 1)
  {
    assert (2 * p) * q == 2 * (p * q) && (2 * p) * (q + 1) == 2 * (p * (q + 1));
  }

  lemma {:induction false} BitwiseBound(k: BitKind, a: nat, b: nat, n: nat)
    ensures Bitwise(k, a, b, n) < Pow2(n)
    decreases n
  {
    if n > 0 {
      BitwiseBound(k, a / 2, b / 2, n - 1);
    }
  }

  lemma Pow2At32()
    ensures Pow2(32) == TWO32
  {
    assert Pow2(8) == 0x100;
    assert Pow2(16) == 0x1_0000 by { assert Pow2(12) == 0x1000; }
    assert Pow2(24) == 0x100_0000 by { assert Pow2(20) == 0x10_0000; }
    assert Pow2(28) == 0x1000_0000;
  }

  lemma BitDown(x: nat, i: nat)
    ensures i == 0 ==> BitAt(x, i) == x % 2
    ensures i > 0 ==> BitAt(x, i) == BitAt(x / 2, i - 1)
  {
    if i > 0 {
      HalfThen(x, Pow2(i - 1));
    }
  }

  lemma {:induction false} BitwiseAt(k: BitKind, a: nat, b: nat, n: nat, i: nat)
    requires i < n
    ensures BitAt(Bitwise(k, a, b, n), i) == Bit(k, BitAt(a, i), BitAt(b, i))
    decreases n
  {
    var x, rest := Bitwise(k, a, b, n), Bitwise(k, a / 2, b / 2, n - 1);
    assert x == Bit(k, a, b) + 2 * rest && x / 2 == rest && x % 2 == Bit(k, a, b);
    BitDown(x, i);
    BitDown(a, i);
    BitDown(b, i);
    if i > 0 {
      BitwiseAt(k, a / 2, b / 2, n - 1, i - 1);
    }
  }

  /** Bitwise operations, bit by bit: a product, a sum capped at one, a sum modulo two. */
  lemma BitsMean(k: BitKind, a: u32, b: u32, i: nat)
    requires i < 32
    ensures var x, y, z := BitAt(a, i), BitAt(b, i), BitAt(Bits32(k, a, b), i);
      z == match k case BitAnd => x * y case BitOr => x + y - x * y case BitXor => (x + y) % 2
  {
    hide Bitwise, BitAt, Bit;
    BitwiseBound(k, a, b, 32);
    Pow2At32();
    assert Bits32(k, a, b) == Bitwise(k, a, b, 32);
    BitwiseAt(k, a, b, 32, i);
    BitTable(k, BitAt(a, i), BitAt(b, i));
  }

  lemma BitTable(k: BitKind, x: nat, y: nat)
    requires x < 2 && y < 2
    ensures Bit(k, x, y) == match k case BitAnd => x * y case BitOr => x + y - x * y case BitXor => (x + y) % 2
  {
    if x == 0 {
      assert x * y == 0;
    } else {
      assert x * y == y;
    }
  }

  lemma {:induction false} SameBits(x: nat, y: nat, n: nat)
    requires x < Pow2(n) && y < Pow2(n) && forall i | 0 <= i < n :: BitAt(x, i) == BitAt(y, i)
    ensures x == y
    decreases n
  {
    if n > 0 {
      BitDown(x, 0);
      BitDown(y, 0);
      assert BitAt(x, 0) == BitAt(y, 0);
      forall i | 0 <= i < n - 1 ensures BitAt(x / 2, i) == BitAt(y / 2, i) {
        BitDown(x, i + 1);
        BitDown(y, i + 1);
      }
      SameBits(x / 2, y / 2, n - 1);
    }
  }

  /** A word is its 32 bits. */
  lemma WordIsBits(x: u32, y: u32)
    requires forall i | 0 <= i < 32 :: BitAt(x, i) == BitAt(y, i)
    ensures x == y
  {
    Pow2At32();
    SameBits(x, y, 32);
  }
}
