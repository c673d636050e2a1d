/** RV64M results (execute.rs) on exact integers, with every width and wrap written out. The word
    modulus m is 2^64 for the full forms and 2^32 for the W forms. */
module MulDiv {
  import opened Base

  predicate Modulus(m: int) {
    m == TWO_64 || m == TWO_32
  }

  predicate Word(a: int, m: int) {
    0 <= a < m
  }

  /** Two's-complement reading of a word. */
  function Signed(a: int, m: int): int {
    if a < m / 2 then a else a - m
  }

  predicate InSigned(x: int, m: int) {
    -(m / 2) <= x < m / 2
  }

  /** Two's-complement bits of an integer. */
  function Wrap(x: int, m: int): int
    requires Modulus(m)
  {
    if m == TWO_64 then x % TWO_64 else x % TWO_32
  }

  function Abs(x: int): nat {
    if x < 0 then -x else x
  }

  /** Rust's / and % on signed integers: truncation towards zero. */
  function TruncDiv(x: int, y: int): int
    requires y != 0
  {
    var q: int := Abs(x) / Abs(y);
    if (x >= 0) == (y > 0) then q else -q
  }

  function TruncRem(x: int, y: int): int
    requires y != 0
  {
    var r: int := Abs(x) % Abs(y);
    if x >= 0 then r else -r
  }

  function Mul(a: int, b: int, m: int): int
    requires Modulus(m)
  {
    Wrap(a * b, m)
  }

  /** The high word of a 128-bit product: an arithmetic shift by 64, then truncation. */
  function High(p: int): int {
    p / TWO_64 % TWO_64
  }

  function Mulh(a: u64, b: u64): int { High(Signed(a, TWO_64) * Signed(b, TWO_64)) }
  function Mulhsu(a: u64, b: u64): int { High(Signed(a, TWO_64) * b) }
  function Mulhu(a: u64, b: u64): int { High(a * b) }

  /** The two cases the source intercepts before dividing. */
  predicate Overflows(a: int, b: int, m: int) {
    Signed(a, m) == -(m / 2) && Signed(b, m) == -1
  }

  function Div(a: int, b: int, m: int): int
    requires Modulus(m) && Word(a, m) && Word(b, m)
  {
    if b == 0 then m - 1
    else if Overflows(a, b, m) then a
    else Wrap(TruncDiv(Signed(a, m), Signed(b, m)), m)
  }

  function Rem(a: int, b: int, m: int): int
    requires Modulus(m) && Word(a, m) && Word(b, m)
  {
    if b == 0 then a
    else if Overflows(a, b, m) then 0
    else Wrap(TruncRem(Signed(a, m), Signed(b, m)), m)
  }

  function Divu(a: nat, b: nat, m: nat): int
    requires m > 0
  {
    if b == 0 then m - 1 else a / b
  }

  function Remu(a: nat, b: nat): int {
    if b == 0 then a else a % b
  }

  lemma DivuBound(a: nat, b: nat, m: nat)
    requires Modulus(m) && a < m
    ensures Word(Divu(a, b, m), m) && Word(Remu(a, b), m)
  {
    if b > 0 {
      QuotientScales(a, b);
    }
  }

  // ---------- products ----------

  const TWO_127 := 0x8000_0000_0000_0000_0000_0000_0000_0000

  /** MUL and MULH together are the exact signed product, which never leaves 128 bits. */
  lemma MulhExact(a: u64, b: u64)
    ensures -TWO_127 <= Signed(a, TWO_64) * Signed(b, TWO_64) < TWO_127
    ensures Signed(Mulh(a, b), TWO_64) * TWO_64 + Mul(a, b, TWO_64) == Signed(a, TWO_64) * Signed(b, TWO_64)
  {
    var x, y := Signed(a, TWO_64), Signed(b, TWO_64);
    SignedProductBound(x, y);
    SameLowWord(a, b, x, y, TWO_64);
    HighWord(x * y);
  }

  lemma MulhsuExact(a: u64, b: u64)
    ensures -TWO_127 <= Signed(a, TWO_64) * b < TWO_127
    ensures Signed(Mulhsu(a, b), TWO_64) * TWO_64 + Mul(a, b, TWO_64) == Signed(a, TWO_64) * b
  {
    var x := Signed(a, TWO_64);
    MulMono(-(TWO_64 / 2), x, b);
    MulMono(x, TWO_64 / 2 - 1, b);
    SameLowWord(a, b, x, b, TWO_64);
    HighWord(x * b);
  }

  lemma MulhuExact(a: u64, b: u64)
    ensures 0 <= a * b < 2 * TWO_127
    ensures Mulhu(a, b) * TWO_64 + Mul(a, b, TWO_64) == a * b
  {
    MulMono(0, a, b);
    MulMono(a, TWO_64 - 1, b);
  }

  /** Multiplication by a nonnegative factor is monotone. */
  lemma MulMono(x: int, y: int, z: nat)
    requires x <= y
    ensures x * z <= y * z
  {
    assert (y - x) * z >= 0;
  }

  lemma SignedProductBound(x: int, y: int)
    requires InSigned(x, TWO_64) && InSigned(y, TWO_64)
    ensures -TWO_127 <= x * y < TWO_127
  {
    if y >= 0 {
      MulMono(-(TWO_64 / 2), x, y);
      MulMono(x, TWO_64 / 2 - 1, y);
    } else {
      MulMono(-(TWO_64 / 2), x, -y);
      MulMono(x, TWO_64 / 2 - 1, -y);
      assert x * -y == -(x * y);
    }
  }

  /** Replacing factors by congruent ones does not change the low word. */
  lemma SameLowWord(a: int, b: int, x: int, y: int, m: int)
    requires Modulus(m) && (x == a || x == a - m) && (y == b || y == b - m)
    ensures Wrap(a * b, m) == Wrap(x * y, m)
  {
    var q := (if y == b then 0 else a) + (if x == a then 0 else b) - (if x == a || y == b then 0 else m);
    assert x * y == a * b - q * m by {
      if x != a && y != b {
        assert (a - m) * (b - m) == a * b - (a + b - m) * m;
      } else if x != a {
        assert (a - m) * b == a * b - b * m;
      } else if y != b {
        assert a * (b - m) == a * b - a * m;
      }
    }
    WrapShift(a * b, q, m);
  }

  lemma WrapShift(p: int, q: int, m: int)
    requires Modulus(m)
    ensures Wrap(p - q * m, m) == Wrap(p, m)
  {
    if m == TWO_64 {
      assert (p - q * TWO_64) % TWO_64 == p % TWO_64;
    } else {
      assert (p - q * TWO_32) % TWO_32 == p % TWO_32;
    }
  }

  lemma HighWord(p: int)
    requires -TWO_127 <= p < TWO_127
    ensures Signed(High(p), TWO_64) * TWO_64 + p % TWO_64 == p
  {
    SignedOfWrap(p / TWO_64, TWO_64);
  }

  lemma SignedOfWrap(x: int, m: int)
    requires Modulus(m) && InSigned(x, m)
    ensures Word(Wrap(x, m), m) && Signed(Wrap(x, m), m) == x
  {
  }

  // ---------- quotients ----------

  /** Truncated division: the remainder is smaller than the divisor and takes the dividend's sign. */
  lemma TruncLaws(x: int, y: int)
    requires y != 0
    ensures TruncDiv(x, y) * y + TruncRem(x, y) == x
    ensures Abs(TruncRem(x, y)) < Abs(y)
    ensures TruncRem(x, y) != 0 ==> (TruncRem(x, y) < 0 <==> x < 0)
  {
    var q: int, r: int := Abs(x) / Abs(y), Abs(x) % Abs(y);
    assert Abs(x) == Abs(y) * q + r;
    SignedQuotient(y, q);
  }

  lemma SignedQuotient(y: int, q: int)
    ensures y > 0 ==> Abs(y) * q == q * y
    ensures y < 0 ==> Abs(y) * q == -(q * y)
    ensures (-q) * y == -(q * y)
  {
  }

  lemma QuotientBound(x: int, y: int, m: int)
    requires Modulus(m) && InSigned(x, m) && InSigned(y, m) && y != 0 && !(x == -(m / 2) && y == -1)
    ensures InSigned(TruncDiv(x, y), m)
  {
    hide TruncDiv, InSigned, Modulus, Quotient;
    TruncIsQuotient(x, y);
    QuotientScales(Abs(x), Abs(y));
    QuotientFits(x, y, Quotient(Abs(x), Abs(y)), m);
  }

  function Quotient(x: nat, y: nat): int
    requires y > 0
  {
    x / y
  }

  lemma TruncIsQuotient(x: int, y: int)
    requires y != 0
    ensures (x >= 0) == (y > 0) ==> TruncDiv(x, y) == Quotient(Abs(x), Abs(y))
    ensures (x >= 0) != (y > 0) ==> TruncDiv(x, y) == -Quotient(Abs(x), Abs(y))
  {
  }

  lemma QuotientFits(x: int, y: int, q: int, m: int)
    requires Modulus(m) && InSigned(x, m) && InSigned(y, m) && y != 0 && !(x == -(m / 2) && y == -1)
    requires 0 <= q <= Abs(x) && (Abs(y) >= 2 ==> 2 * q <= Abs(x))
    ensures InSigned(if (x >= 0) == (y > 0) then q else -q, m)
  {
  }

  lemma QuotientScales(x: nat, y: nat)
    requires y > 0
    ensures 0 <= Quotient(x, y) <= x
    ensures y >= 2 ==> 2 * Quotient(x, y) <= x
  {
    var q := x / y;
    assert y * q <= x;
    MulMono(1, y, q);
    if y >= 2 {
      MulMono(2, y, q);
    }
  }

  /** Outside the intercepted cases the results, read as signed numbers, are the truncated quotient
      and remainder: exact identity, |r| < |b|, r signed like a. */
  lemma DivRemSigned(a: int, b: int, m: int)
    requires Modulus(m) && Word(a, m) && Word(b, m) && b != 0 && !Overflows(a, b, m)
    ensures Signed(Div(a, b, m), m) * Signed(b, m) + Signed(Rem(a, b, m), m) == Signed(a, m)
    ensures Abs(Signed(Rem(a, b, m), m)) < Abs(Signed(b, m))
    ensures Signed(Rem(a, b, m), m) != 0 ==> (Signed(Rem(a, b, m), m) < 0 <==> Signed(a, m) < 0)
  {
    hide TruncDiv, TruncRem, Wrap;
    var x, y := Signed(a, m), Signed(b, m);
    TruncLaws(x, y);
    QuotientBound(x, y, m);
    SignedOfWrap(TruncDiv(x, y), m);
    SignedOfWrap(TruncRem(x, y), m);
  }

  /** For every pair, division by zero and MIN / -1 included, q * b + r is a modulo 2^64 (2^32 for
      DIVW and REMW). */
  lemma DivRemIdentity(a: int, b: int, m: int)
    requires Modulus(m) && Word(a, m) && Word(b, m)
    ensures Wrap(Div(a, b, m) * b + Rem(a, b, m), m) == a
  {
    if b == 0 {
    } else if Overflows(a, b, m) {
      MinOverMinusOne();
    } else {
      hide TruncDiv, TruncRem;
      var x, y := Signed(a, m), Signed(b, m);
      TruncLaws(x, y);
      QuotientBound(x, y, m);
      WrapIdentity(TruncDiv(x, y), TruncRem(x, y), a, b, m);
    }
  }

  lemma MinOverMinusOne()
    ensures Wrap((TWO_64 / 2) * (TWO_64 - 1), TWO_64) == TWO_64 / 2
    ensures Wrap((TWO_32 / 2) * (TWO_32 - 1), TWO_32) == TWO_32 / 2
  {
  }

  /** A signed identity carries over to the wrapped words. */
  lemma WrapIdentity(q: int, r: int, a: int, b: int, m: int)
    requires Modulus(m) && Word(a, m) && Word(b, m)
    requires q * Signed(b, m) + r == Signed(a, m) && InSigned(q, m)
    ensures Wrap(Wrap(q, m) * b + Wrap(r, m), m) == a
  {
    SignedOfWrap(q, m);
    assert Wrap(Signed(a, m), m) == a && Wrap(Wrap(r, m), m) == Wrap(r, m);
    hide Wrap;
    SameLowWord(Wrap(q, m), b, q, Signed(b, m), m);
    WrapSum(Wrap(q, m) * b, q * Signed(b, m), Wrap(r, m), r, m);
  }

  lemma WrapSum(p: int, p': int, s: int, s': int, m: int)
    requires Modulus(m) && Wrap(p, m) == Wrap(p', m) && Wrap(s, m) == Wrap(s', m)
    ensures Wrap(p + s, m) == Wrap(p' + s', m)
  {
    var k := p' / m - p / m;
    var j := s' / m - s / m;
    assert p == p' - k * m && s == s' - j * m;
    assert p + s == (p' + s') - (k + j) * m;
    WrapShift(p' + s', k + j, m);
  }

  /** DIVU and REMU: exact division, all ones and the dividend on division by zero. */
  lemma DivuRemuIdentity(a: nat, b: nat, m: nat)
    requires Modulus(m) && a < m
    ensures b != 0 ==> Divu(a, b, m) * b + Remu(a, b) == a && Remu(a, b) < b
    ensures Wrap(Divu(a, b, m) * b + Remu(a, b), m) == a
  {
  }
}
