/** Comparisons (execute.rs): SLT, SLTU and the branches order registers as the numbers they hold. */
module Compare {
  import opened Base
  import opened Words
  import opened Rv64
  import MulDiv

  predicate Below(x: bv64, y: bv64) {
    x < y
  }

  function LowByte(x: bv64): bv8 {
    (x & 0xff) as bv8
  }

  lemma UpperDecides(x: bv64, y: bv64)
    requires Below(Drop(x), Drop(y))
    ensures Below(x, y)
  {
    hide Below, Drop;
    UpperOfDrop(x, y);
    UpperBits(x, y);
    IsBelow(x, y);
  }

  lemma UpperOfDrop(x: bv64, y: bv64)
    requires Below(Drop(x), Drop(y))
    ensures (x >> 8) < (y >> 8)
  {
  }

  lemma IsBelow(x: bv64, y: bv64)
    requires x < y
    ensures Below(x, y)
  {
  }

  lemma UpperBits(x: bv64, y: bv64)
    requires (x >> 8) < (y >> 8)
    ensures x < y
  {
  }

  lemma ByteDecides(x: bv64, y: bv64)
    requires Drop(x) == Drop(y) && LowByte(x) < LowByte(y)
    ensures Below(x, y)
  {
    ByteBits(x, y);
  }

  lemma ByteBits(x: bv64, y: bv64)
    requires (x >> 8) == (y >> 8) && (x & 0xff) as bv8 < (y & 0xff) as bv8
    ensures x < y
  {
  }

  lemma Asymmetric(x: bv64, y: bv64)
    requires Below(x, y)
    ensures !Below(y, x)
  {
    AsymmetricBits(x, y);
  }

  lemma AsymmetricBits(x: bv64, y: bv64)
    requires x < y
    ensures !(y < x)
  {
  }

  lemma ByteOrder(a: bv8, b: bv8)
    ensures a < b <==> a as int < b as int
  {
  }

  lemma LowByteOrder(x: bv64, y: bv64)
    ensures LowByte(x) < LowByte(y) <==> ByteOf(x) < ByteOf(y)
  {
    ByteOrder(LowByte(x), LowByte(y));
  }

  lemma WithinDrop(x: bv64, m: bv64)
    requires Within(x, MaskByte(m))
    ensures Within(Drop(x), m)
  {
  }

  lemma WithinNone(x: bv64)
    requires Within(x, 0)
    ensures x == 0
  {
  }

  lemma NotBelow(x: bv64)
    ensures !Below(x, x)
  {
  }

  /** Equal numbers are equal words. */
  lemma SameValue(x: bv64, y: bv64, n: nat)
    requires Within(x, Mask(n)) && Within(y, Mask(n)) && ValueOf(x, n) == ValueOf(y, n)
    ensures x == y
  {
    hide Mask, ValueOf, WordOf, Cut, Within;
    WordOfValue(x, n, n);
    WordOfValue(y, n, n);
    CutWithin(x, Mask(n));
    CutWithin(y, Mask(n));
  }

  lemma CutWithin(x: bv64, m: bv64)
    requires Within(x, m)
    ensures Cut(x, m) == x
  {
  }

  /** A smaller number is a smaller word. */
  lemma {:induction false} SmallerValue(x: bv64, y: bv64, n: nat)
    requires Within(x, Mask(n)) && Within(y, Mask(n)) && ValueOf(x, n) < ValueOf(y, n)
    ensures Below(x, y)
    decreases n
  {
    hide Below, Drop, ByteOf, LowByte, Within, MaskByte;
    WithinDrop(x, Mask(n - 1));
    WithinDrop(y, Mask(n - 1));
    if ValueOf(Drop(x), n - 1) == ValueOf(Drop(y), n - 1) {
      SameValue(Drop(x), Drop(y), n - 1);
      LowByteOrder(x, y);
      ByteDecides(x, y);
    } else {
      SmallerValue(Drop(x), Drop(y), n - 1);
      UpperDecides(x, y);
    }
  }

  lemma OrderOfValue(x: bv64, y: bv64, n: nat)
    requires Within(x, Mask(n)) && Within(y, Mask(n))
    ensures Below(x, y) <==> ValueOf(x, n) < ValueOf(y, n)
  {
    hide Below, ValueOf, Within, Mask;
    if ValueOf(x, n) < ValueOf(y, n) {
      SmallerValue(x, y, n);
    } else if ValueOf(x, n) == ValueOf(y, n) {
      SameValue(x, y, n);
      NotBelow(x);
    } else {
      SmallerValue(y, x, n);
      Asymmetric(y, x);
    }
  }

  lemma AllWithin(x: bv64)
    ensures Within(x, 0xffff_ffff_ffff_ffff)
  {
  }

  lemma FromWordOrder(x: bv64, y: bv64)
    ensures Below(x, y) <==> FromWord(x) < FromWord(y)
  {
    hide Below, ValueOf, Mask, Within;
    MaskValues();
    AllWithin(x);
    AllWithin(y);
    OrderOfValue(x, y, 8);
  }

  const SIGN: bv64 := 0x8000_0000_0000_0000

  lemma SignValue()
    ensures FromWord(SIGN) == 0x8000_0000_0000_0000
  {
    assert ValueOf(0x80, 1) == 0x80 by {
      assert ByteOf(0x80) == 0x80;
    }
    assert ValueOf(0x8000, 2) == 0x8000 by { ZeroByte(0x80); }
    assert ValueOf(0x80_0000, 3) == 0x80_0000 by { ZeroByte(0x8000); }
    assert ValueOf(0x8000_0000, 4) == 0x8000_0000 by { ZeroByte(0x80_0000); }
    assert ValueOf(0x80_0000_0000, 5) == 0x80_0000_0000 by { ZeroByte(0x8000_0000); }
    assert ValueOf(0x8000_0000_0000, 6) == 0x8000_0000_0000 by { ZeroByte(0x80_0000_0000); }
    assert ValueOf(0x80_0000_0000_0000, 7) == 0x80_0000_0000_0000 by { ZeroByte(0x8000_0000_0000); }
    ZeroByte(0x80_0000_0000_0000);
  }

  lemma ZeroByte(x: bv64)
    requires Short(x)
    ensures ByteOf(x << 8) == 0 && Drop(x << 8) == x
  {
  }

  /** Signed order by sign bits, then unsigned order. */
  lemma LessBySigns(a: bv64, b: bv64)
    ensures Less(a, b) <==> (!Below(a, SIGN) && Below(b, SIGN)) || (Below(a, SIGN) == Below(b, SIGN) && Below(a, b))
  {
  }

  /** Signed and unsigned comparison of registers. */
  lemma ComparesNumbers(a: bv64, b: bv64)
    ensures a < b <==> FromWord(a) < FromWord(b)
    ensures Less(a, b) <==> MulDiv.Signed(FromWord(a), TWO_64) < MulDiv.Signed(FromWord(b), TWO_64)
  {
    hide Less, FromWord;
    LessBySigns(a, b);
    FromWordOrder(a, b);
    FromWordOrder(a, SIGN);
    FromWordOrder(b, SIGN);
    SignValue();
  }
}
