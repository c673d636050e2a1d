/** Words as numbers: what shifting, masking and joining bits does to the number a word holds. */
module Numbers {
  import opened Base
  import opened Words
  import opened Division
  import opened Encoding
  import Compare
  import MulDiv

  // ---------- joining disjoint bits adds ----------

  predicate Disjoint(x: bv64, y: bv64) {
    x & y == 0
  }

  function Join2(x: bv64, y: bv64): bv64 {
    x | y
  }

  function Low8(x: bv64): bv8 {
    (x & 0xff) as bv8
  }

  lemma ByteOfIs(x: bv64)
    ensures ByteOf(x) == Low8(x) as int
  {
  }

  function OrByte(a: bv8, b: bv8): bv8 {
    a | b
  }

  predicate ApartByte(a: bv8, b: bv8) {
    a & b == 0
  }

  lemma ByteSum(a: bv8, b: bv8)
    requires ApartByte(a, b)
    ensures OrByte(a, b) as int == a as int + b as int
  {
  }

  lemma LowBits(x: bv64, y: bv64)
    requires x & y == 0
    ensures ((x & 0xff) as bv8) & ((y & 0xff) as bv8) == 0
    ensures ((x | y) & 0xff) as bv8 == ((x & 0xff) as bv8) | ((y & 0xff) as bv8)
  {
  }

  lemma Low8OfJoin(x: bv64, y: bv64)
    requires Disjoint(x, y)
    ensures ApartByte(Low8(x), Low8(y)) && Low8(Join2(x, y)) == OrByte(Low8(x), Low8(y))
  {
    LowBits(x, y);
  }

  lemma JoinBytes(x: bv64, y: bv64)
    requires Disjoint(x, y)
    ensures ByteOf(Join2(x, y)) == ByteOf(x) + ByteOf(y)
  {
    hide Disjoint, Join2, ByteOf, Low8, OrByte, ApartByte;
    Low8OfJoin(x, y);
    ByteSum(Low8(x), Low8(y));
    ByteOfIs(x);
    ByteOfIs(y);
    ByteOfIs(Join2(x, y));
  }

  lemma DropJoin2(x: bv64, y: bv64)
    ensures (x | y) >> 8 == (x >> 8) | (y >> 8)
  {
  }

  lemma DropIs(x: bv64, y: bv64)
    ensures Drop(Join2(x, y)) == Join2(Drop(x), Drop(y))
  {
    DropJoin2(x, y);
  }

  lemma DropDisjointBits(x: bv64, y: bv64)
    requires x & y == 0
    ensures (x >> 8) & (y >> 8) == 0
  {
  }

  lemma DropDisjoint(x: bv64, y: bv64)
    requires Disjoint(x, y)
    ensures Disjoint(Drop(x), Drop(y))
  {
    DropDisjointBits(x, y);
  }

  lemma {:induction false} JoinValues(x: bv64, y: bv64, n: nat)
    requires Disjoint(x, y)
    ensures ValueOf(Join2(x, y), n) == ValueOf(x, n) + ValueOf(y, n)
    decreases n
  {
    hide Disjoint, Join2, ByteOf, Drop;
    if n > 0 {
      JoinBytes(x, y);
      DropIs(x, y);
      DropDisjoint(x, y);
      JoinValues(Drop(x), Drop(y), n - 1);
    }
  }

  // ---------- halving ----------

  function Half(x: bv64): bv64 {
    x >> 1
  }

  function Parity(x: bv64): int {
    if x & 1 == 0 then 0 else 1
  }

  function HalfByte(a: bv8, c: bv8): bv8 {
    (a >> 1) | (c << 7)
  }

  lemma HalfByteNumber(a: bv8, c: bv8)
    requires c <= 1
    ensures HalfByte(a, c) as int == a as int / 2 + 128 * (c as int)
  {
  }

  function LowBit8(x: bv64): bv8 {
    (x & 1) as bv8
  }

  lemma LowBitNumber(x: bv64)
    ensures LowBit8(x) <= 1 && LowBit8(x) as int == Parity(x)
  {
  }

  lemma HalfBits(x: bv64)
    ensures ((x >> 1) & 0xff) as bv8 == (((x & 0xff) as bv8) >> 1) | ((((x >> 8) & 1) as bv8) << 7)
  {
  }

  lemma Low8OfHalf(x: bv64)
    ensures Low8(Half(x)) == HalfByte(Low8(x), LowBit8(Drop(x)))
  {
    HalfBits(x);
  }

  lemma ByteOfHalf(x: bv64)
    ensures ByteOf(Half(x)) == ByteOf(x) / 2 + 128 * Parity(Drop(x))
  {
    hide ByteOf, Low8, Half, HalfByte, Drop, LowBit8, Parity;
    ByteOfIs(x);
    ByteOfIs(Half(x));
    Low8OfHalf(x);
    LowBitNumber(Drop(x));
    HalfByteNumber(Low8(x), LowBit8(Drop(x)));
  }

  lemma ParityNumber(a: bv8)
    ensures (a & 1) as int == a as int % 2
  {
  }

  lemma ParityBits(x: bv64)
    ensures ((x & 0xff) as bv8) & 1 == (x & 1) as bv8
  {
  }

  lemma ParityOfByte(x: bv64)
    ensures ByteOf(x) % 2 == Parity(x)
  {
    hide Parity;
    ParityBits(x);
    ParityNumber(Low8(x));
    LowBitNumber(x);
  }

  lemma HalfThenDrop(x: bv64)
    ensures Drop(Half(x)) == x >> 9
  {
  }

  lemma DropThenHalf(x: bv64)
    ensures Half(Drop(x)) == x >> 9
  {
  }

  lemma HalfDrop(x: bv64)
    ensures Drop(Half(x)) == Half(Drop(x))
  {
    hide Half, Drop;
    HalfThenDrop(x);
    DropThenHalf(x);
  }

  lemma NoParity()
    ensures Parity(0) == 0
  {
  }

  lemma {:induction false} HalfValue(x: bv64, n: nat)
    requires Within(x, Mask(n))
    ensures ValueOf(x, n) == 2 * ValueOf(Half(x), n) + Parity(x)
    decreases n
  {
    hide Within, ByteOf, Half, Drop, Parity, MaskByte;
    if n == 0 {
      Compare.WithinNone(x);
      NoParity();
    } else {
      Compare.WithinDrop(x, Mask(n - 1));
      HalfValue(Drop(x), n - 1);
      ByteOfHalf(x);
      ParityOfByte(x);
      HalfDrop(x);
    }
  }

  /** Halving a word halves its number. */
  lemma HalfWord(x: bv64)
    ensures FromWord(x) == 2 * FromWord(Half(x)) + Parity(x)
    ensures FromWord(Half(x)) == FromWord(x) / 2 && Parity(x) == FromWord(x) % 2
  {
    hide ValueOf, Half, Parity, Mask, Within;
    MaskValues();
    Compare.AllWithin(x);
    HalfValue(x, 8);
    ParityRange(x);
  }

  lemma ParityRange(x: bv64)
    ensures 0 <= Parity(x) <= 1
  {
  }

  // ---------- shifts ----------

  function Pow2(n: nat): (p: nat)
    ensures p > 0
  {
    if n == 0 then 1 else 2 * Pow2(n - 1)
  }

  lemma OneLess(n: bv6)
    requires n != 0
    ensures (n - 1) as int == n as int - 1 && n as int > 0
  {
  }

  lemma WideAmount(n: bv6)
    requires n != 0
    ensures (n - 1) as bv64 == (n as bv64) - 1
    ensures 0 < (n as bv64) < 64
  {
  }

  lemma ShrWide(x: bv64, n: bv6)
    ensures Shr(x, n) == x >> (n as bv64)
  {
  }

  lemma WideShrStep(x: bv64, n: bv64)
    requires 0 < n < 64
    ensures x >> n == (x >> (n - 1)) >> 1
  {
  }

  /** The shift with its amount as a word. */
  function WideShr(x: bv64, n: bv64): bv64
    requires n < 64
  {
    x >> n
  }

  lemma WideShrHalf(x: bv64, n: bv64)
    requires 0 < n < 64
    ensures WideShr(x, n) == Half(WideShr(x, n - 1))
  {
    WideShrStep(x, n);
  }

  lemma ShrIsWide(x: bv64, n: bv6)
    ensures (n as bv64) < 64 && Shr(x, n) == WideShr(x, n as bv64)
  {
    hide Shr;
    ShrWide(x, n);
  }

  lemma ShrStep(x: bv64, n: bv6)
    requires n != 0
    ensures Shr(x, n) == Half(Shr(x, n - 1))
  {
    hide Shr, Half, WideShr;
    WideAmount(n);
    ShrIsWide(x, n);
    ShrIsWide(x, n - 1);
    WideShrHalf(x, n as bv64);
  }

  lemma ShrNone(x: bv64)
    ensures Shr(x, 0) == x
  {
  }

  /** A logical right shift divides. */
  lemma {:induction false} ShrNumber(x: bv64, n: bv6)
    ensures FromWord(Shr(x, n)) == FromWord(x) / Pow2(n as int)
    decreases n as int
  {
    hide Shr, Half, FromWord;
    if n == 0 {
      ShrNone(x);
    } else {
      OneLess(n);
      ShrNumber(x, n - 1);
      ShrStep(x, n);
      HalfWord(Shr(x, n - 1));
      DivideTwice(FromWord(x), Pow2((n - 1) as int));
    }
  }

  function Double(x: bv64): bv64 {
    x << 1
  }

  function ClearTop(x: bv64): bv64 {
    x & 0x7fff_ffff_ffff_ffff
  }

  function TopOnly(x: bv64): bv64 {
    x & 0x8000_0000_0000_0000
  }

  lemma TopSplits(x: bv64)
    ensures Join2(ClearTop(x), TopOnly(x)) == x
    ensures Disjoint(ClearTop(x), TopOnly(x))
    ensures TopOnly(x) == 0 || TopOnly(x) == 0x8000_0000_0000_0000
  {
  }

  lemma ZeroNumber()
    ensures FromWord(0) == 0
  {
    ZeroWord(8);
    Pow256Values();
    ValueOfWord(0, 8);
  }

  /** The top bit counts 2^63. */
  lemma TopNumber(x: bv64)
    ensures FromWord(x) == FromWord(ClearTop(x)) + (if TopOnly(x) == 0 then 0 else 0x8000_0000_0000_0000)
  {
    hide ClearTop, TopOnly, Join2, Disjoint, ValueOf;
    TopSplits(x);
    JoinValues(ClearTop(x), TopOnly(x), 8);
    ZeroNumber();
    Compare.SignValue();
  }

  lemma DoubleBits(x: bv64)
    ensures Half(Double(x)) == ClearTop(x)
    ensures Parity(Double(x)) == 0
  {
    HalfDoubleBits(x);
    EvenBits(x);
  }

  lemma HalfDoubleBits(x: bv64)
    ensures (x << 1) >> 1 == x & 0x7fff_ffff_ffff_ffff
  {
  }

  lemma EvenBits(x: bv64)
    ensures (x << 1) & 1 == 0
  {
  }

  lemma DoubleNumber(x: bv64)
    ensures FromWord(Double(x)) == 2 * FromWord(x) % TWO_64
  {
    hide Double, Half, ClearTop, TopOnly, FromWord, Parity;
    DoubleBits(x);
    HalfWord(Double(x));
    TopNumber(x);
  }

  lemma ShlWide(x: bv64, n: bv6)
    ensures Shl(x, n) == x << (n as bv64)
  {
  }

  lemma WideShlStep(x: bv64, n: bv64)
    requires 0 < n < 64
    ensures x << n == (x << (n - 1)) << 1
  {
  }

  /** The shift with its amount as a word. */
  function WideShl(x: bv64, n: bv64): bv64
    requires n < 64
  {
    x << n
  }

  lemma WideShlDouble(x: bv64, n: bv64)
    requires 0 < n < 64
    ensures WideShl(x, n) == Double(WideShl(x, n - 1))
  {
    WideShlStep(x, n);
  }

  lemma ShlIsWide(x: bv64, n: bv6)
    ensures (n as bv64) < 64 && Shl(x, n) == WideShl(x, n as bv64)
  {
    hide Shl;
    ShlWide(x, n);
  }

  lemma ShlStep(x: bv64, n: bv6)
    requires n != 0
    ensures Shl(x, n) == Double(Shl(x, n - 1))
  {
    hide Shl, Double, WideShl;
    WideAmount(n);
    ShlIsWide(x, n);
    ShlIsWide(x, n - 1);
    WideShlDouble(x, n as bv64);
  }

  lemma ShlNone(x: bv64)
    ensures Shl(x, 0) == x
  {
  }

  /** A left shift multiplies, modulo 2^64. */
  lemma {:induction false} ShlNumber(x: bv64, n: bv6)
    ensures FromWord(Shl(x, n)) == FromWord(x) * Pow2(n as int) % TWO_64
    decreases n as int
  {
    hide Shl, Double, FromWord;
    if n == 0 {
      ShlNone(x);
    } else {
      OneLess(n);
      ShlNumber(x, n - 1);
      ShlStep(x, n);
      DoubleNumber(Shl(x, n - 1));
      DoubleProduct(FromWord(x), Pow2((n - 1) as int));
    }
  }

  lemma DoubleProduct(a: nat, p: nat)
    ensures 2 * (a * p % TWO_64) % TWO_64 == a * (2 * p) % TWO_64
  {
    var t := a * p;
    assert a * (2 * p) == 2 * t;
  }

  function SignedOf(x: bv64): int {
    MulDiv.Signed(FromWord(x), TWO_64)
  }

  lemma TopIsSign(x: bv64)
    ensures TopOnly(x) == 0 <==> FromWord(x) < 0x8000_0000_0000_0000
  {
    hide TopOnly, FromWord;
    Compare.FromWordOrder(x, Compare.SIGN);
    Compare.SignValue();
    TopBelow(x);
  }

  lemma TopBelow(x: bv64)
    ensures TopOnly(x) == 0 <==> Compare.Below(x, 0x8000_0000_0000_0000)
  {
  }

  lemma JoinNumbers(x: bv64, y: bv64)
    requires Disjoint(x, y)
    ensures FromWord(Join2(x, y)) == FromWord(x) + FromWord(y)
  {
    hide Disjoint, Join2, ValueOf;
    JoinValues(x, y, 8);
  }

  function Not(x: bv64): bv64 {
    !x
  }

  lemma NotJoins(x: bv64)
    ensures Disjoint(x, Not(x)) && Join2(x, Not(x)) == 0xffff_ffff_ffff_ffff
  {
    NotBits(x);
  }

  lemma NotBits(x: bv64)
    ensures x & !x == 0
    ensures x | !x == 0xffff_ffff_ffff_ffff
  {
  }

  lemma JoinOnes(m: bv64)
    ensures Join(255, m) == (m << 8) | 0xff
  {
  }

  lemma JoinMask(m: bv64)
    ensures Join(255, m) == MaskByte(m)
  {
    hide Join;
    JoinOnes(m);
  }

  lemma OnesSplit(k: nat)
    requires k > 0
    ensures (Pow256(k) - 1) % 256 == 255 && (Pow256(k) - 1) / 256 == Pow256(k - 1) - 1
  {
  }

  /** k bytes of ones hold 256^k - 1. */
  lemma {:induction false} OnesWord(k: nat, n: nat)
    requires k <= n
    ensures WordOf(Pow256(k) - 1, n) == Mask(k)
    decreases k
  {
    hide Join, MaskByte;
    if k == 0 {
      ZeroWord(n);
    } else {
      OnesSplit(k);
      OnesWord(k - 1, n - 1);
      JoinMask(Mask(k - 1));
    }
  }

  lemma MaskNumber(k: nat)
    requires k <= 8
    ensures FromWord(Mask(k)) == Pow256(k) - 1
  {
    hide WordOf, ValueOf, Mask;
    OnesWord(k, 8);
    PowersGrow(k);
    Pow256Values();
    ValueOfWord(Pow256(k) - 1, 8);
  }

  lemma {:induction false} PowersGrow(n: nat)
    requires n <= 8
    ensures Pow256(n) <= Pow256(8)
    decreases 8 - n
  {
    if n < 8 {
      PowersGrow(n + 1);
    }
  }

  lemma AllOnesNumber()
    ensures FromWord(0xffff_ffff_ffff_ffff) == TWO_64 - 1
  {
    hide FromWord, Mask;
    MaskValues();
    Pow256Values();
    MaskNumber(8);
  }

  lemma NotNumber(x: bv64)
    ensures FromWord(Not(x)) == TWO_64 - 1 - FromWord(x)
  {
    hide Not, Join2, Disjoint, FromWord;
    NotJoins(x);
    JoinNumbers(x, Not(x));
    AllOnesNumber();
  }

  lemma PositiveMask(x: bv64)
    requires TopOnly(x) == 0
    ensures SignMask(x) == 0
  {
  }

  lemma AndZero(x: bv64) ensures And(0, x) == 0 {}
  lemma OrZero(x: bv64) ensures Or(x, 0) == x {}

  lemma SraPositive(x: bv64, n: bv6)
    requires TopOnly(x) == 0
    ensures Sra(x, n) == Shr(x, n)
  {
    hide TopOnly, SignMask, And, Or, Shr, HighOnes;
    PositiveMask(x);
    AndZero(HighOnes(n));
    OrZero(Shr(x, n));
  }

  lemma NegativeMask(x: bv64)
    requires TopOnly(x) != 0
    ensures SignMask(x) == 0xffff_ffff_ffff_ffff
  {
  }

  lemma AndOnes(x: bv64) ensures And(0xffff_ffff_ffff_ffff, x) == x {}
  lemma OrIsJoin(x: bv64, y: bv64) ensures Or(x, y) == Join2(x, y) {}

  lemma SraNegative(x: bv64, n: bv6)
    requires TopOnly(x) != 0
    ensures Sra(x, n) == Join2(Shr(x, n), HighOnes(n))
  {
    hide TopOnly, SignMask, And, Or, Shr, HighOnes, Join2;
    NegativeMask(x);
    AndOnes(HighOnes(n));
    OrIsJoin(Shr(x, n), HighOnes(n));
  }

  lemma BelowOnes(x: bv64, n: bv6)
    ensures (x >> n) & !(0xffff_ffff_ffff_ffff >> n) == 0
  {
  }

  lemma ShiftedApart(x: bv64, n: bv6)
    ensures Disjoint(Shr(x, n), HighOnes(n))
  {
    BelowOnes(x, n);
  }

  lemma HighOnesIs(n: bv6)
    ensures HighOnes(n) == Not(Shr(0xffff_ffff_ffff_ffff, n))
  {
  }

  /** The n top bits count 2^64 - 2^(64 - n). */
  lemma HighOnesNumber(n: bv6)
    ensures FromWord(HighOnes(n)) == TWO_64 - 1 - (TWO_64 - 1) / Pow2(n as int)
  {
    hide HighOnes, Not, Shr, FromWord, Pow2;
    HighOnesIs(n);
    NotNumber(Shr(0xffff_ffff_ffff_ffff, n));
    ShrNumber(0xffff_ffff_ffff_ffff, n);
    AllOnesNumber();
  }

  /** 2^64 is a multiple of every smaller power of two. */
  lemma {:induction false} PowersDivide(n: nat)
    requires n <= 64
    ensures Pow2(n) * Pow2(64 - n) == TWO_64
    decreases 64 - n
  {
    if n == 64 {
      Pow2Of64();
    } else {
      PowersDivide(n + 1);
      assert Pow2(n + 1) == 2 * Pow2(n) && Pow2(64 - n) == 2 * Pow2(63 - n);
      assert Pow2(n) * (2 * Pow2(63 - n)) == (2 * Pow2(n)) * Pow2(63 - n);
    }
  }

  lemma Pow2Of64()
    ensures Pow2(64) == TWO_64
  {
    Pow2Sum(8, 8);
    Pow2Sum(16, 16);
    Pow2Sum(32, 32);
    assert Pow2(8) == 256 by {
      assert Pow2(4) == 16;
      Pow2Sum(4, 4);
    }
  }

  lemma {:induction false} Pow2Sum(a: nat, b: nat)
    ensures Pow2(a + b) == Pow2(a) * Pow2(b)
    decreases b
  {
    if b > 0 {
      Pow2Sum(a, b - 1);
      assert Pow2(a + b) == 2 * Pow2(a + b - 1);
      assert Pow2(a) * (2 * Pow2(b - 1)) == 2 * (Pow2(a) * Pow2(b - 1));
    }
  }

  /** An arithmetic right shift divides the signed number, rounding down. */
  lemma SraNumber(x: bv64, n: bv6)
    ensures SignedOf(Sra(x, n)) == SignedOf(x) / Pow2(n as int)
  {
    hide Sra, Shr, HighOnes, Join2, Disjoint, TopOnly, FromWord, Pow2;
    TopIsSign(x);
    ShrNumber(x, n);
    var p, k := Pow2(n as int), Pow2(64 - n as int);
    MulDiv.QuotientScales(FromWord(x), p);
    if TopOnly(x) == 0 {
      SraPositive(x, n);
    } else {
      SraNegative(x, n);
      ShiftedApart(x, n);
      JoinNumbers(Shr(x, n), HighOnes(n));
      HighOnesNumber(n);
      PowersDivide(n as int);
      ShiftedQuotient(FromWord(x), p, k);
    }
  }

  /** Quotients by a divisor of 2^64. */
  lemma ShiftedQuotient(a: nat, p: nat, k: nat)
    requires p > 0 && p * k == TWO_64 && 0x8000_0000_0000_0000 <= a < TWO_64
    ensures (TWO_64 - 1) / p == k - 1
    ensures (a - TWO_64) / p == a / p - k
    ensures a / p >= k - 0x8000_0000_0000_0000
  {
    if p >= 2 {
      MulDiv.MulMono(2, p, k);
    }
    var q, r := a / p, a % p;
    assert a == p * q + r;
    assert (k - 1) * p + (p - 1) == TWO_64 - 1;
    UniqueQuotient(p, k - 1, p - 1, (TWO_64 - 1) / p, (TWO_64 - 1) % p);
    assert (q - k) * p + r == a - TWO_64;
    UniqueQuotient(p, q - k, r, (a - TWO_64) / p, (a - TWO_64) % p);
  }
}
