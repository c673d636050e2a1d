/** Sign extension as a statement about numbers (execute.rs, decode.rs). */
module Extensions {
  import opened Base
  import opened Words
  import opened Memory
  import opened Encoding
  import opened Rv64
  import opened Numbers
  import MulDiv

  /** Cutting a word to its low bytes keeps their number. */
  lemma CutNumber(x: bv64, n: nat)
    requires n <= 8
    ensures FromWord(Cut(x, Mask(n))) == ValueOf(x, n)
  {
    hide ValueOf, WordOf, Cut, Mask, FromWord, ToWord;
    WordOfValue(x, n, 8);
    ValueFits(x, n);
    ToIsWord(ValueOf(x, n));
    WordsRoundTrip(0, ValueOf(x, n));
  }

  lemma ToIsWord(v: u64)
    ensures ToWord(v) == WordOf(v, 8)
  {
  }

  lemma {:induction false} ValueFits(x: bv64, n: nat)
    requires n <= 8
    ensures ValueOf(x, n) < TWO_64
    decreases 8 - n
  {
    hide ByteOf, Drop, ValueOf;
    Pow256Values();
    PowersGrow(n);
  }

  // ---------- the sign bit of a field ----------

  lemma TopOfByte(a: bv8)
    ensures a & 0x80 != 0 <==> a as int >= 128
  {
  }

  lemma Bit7(x: bv64)
    ensures (x >> 7) & 1 == 1 <==> Low8(x) & 0x80 != 0
  {
  }

  predicate SignBit(x: bv64) {
    (x >> 7) & 1 == 1
  }

  /** Bit 7 is set exactly for bytes from 128 on. */
  lemma SignBitNumber(x: bv64)
    ensures SignBit(x) <==> ByteOf(x) >= 128
  {
    hide Low8, ByteOf;
    Bit7(x);
    TopOfByte(Low8(x));
    ByteOfIs(x);
  }

  // ---------- extension ----------

  /** The low bytes under mask m, with ones above when the sign is set. */
  function Extended(x: bv64, m: bv64, sign: bool): bv64 {
    if sign then Join2(Cut(x, m), Not(m)) else Cut(x, m)
  }

  lemma CutApart(x: bv64, m: bv64)
    ensures Disjoint(Cut(x, m), Not(m))
  {
    CutApartBits(x, m);
  }

  lemma CutApartBits(x: bv64, m: bv64)
    ensures (x & m) & !m == 0
  {
  }

  /** Extension keeps the signed number of the low n bytes. */
  lemma ExtendedNumber(x: bv64, n: nat, m: bv64, size: nat, sign: bool)
    requires n <= 8 && m == Mask(n) && Pow256(n) == size && 2 <= size <= TWO_32 && size % 2 == 0
    requires sign <==> ValueOf(x, n) >= size / 2
    ensures SignedOf(Extended(x, m, sign)) == MulDiv.Signed(ValueOf(x, n), size)
  {
    hide Cut, Join2, Not, Disjoint, Mask, FromWord, ValueOf;
    CutNumber(x, n);
    if sign {
      CutApart(x, m);
      JoinNumbers(Cut(x, m), Not(m));
      NotNumber(m);
      MaskNumber(n);
    }
  }

  lemma ByteBits(x: bv64)
    ensures !SignBit(x) ==> SextByte(x) == Cut(x, 0xff)
    ensures SignBit(x) ==> SextByte(x) == Cut(x, 0xff) | !0xff
  {
  }

  lemma ByteIs(x: bv64)
    ensures SextByte(x) == Extended(x, 0xff, SignBit(x))
  {
    hide SextByte, SignBit, Cut;
    ByteBits(x);
  }

  lemma HalfBits(x: bv64)
    ensures !SignBit(x >> 8) ==> SextHalf(x) == Cut(x, 0xffff)
    ensures SignBit(x >> 8) ==> SextHalf(x) == Cut(x, 0xffff) | !0xffff
  {
  }

  lemma HalfIs(x: bv64)
    ensures SextHalf(x) == Extended(x, 0xffff, SignBit(Drop(x)))
  {
    hide SextHalf, SignBit, Cut;
    HalfBits(x);
  }

  lemma WordBits(x: bv64)
    ensures !SignBit(x >> 24) ==> SextWord(x) == Cut(x, 0xffff_ffff)
    ensures SignBit(x >> 24) ==> SextWord(x) == Cut(x, 0xffff_ffff) | !0xffff_ffff
  {
  }

  lemma ThreeDrops(x: bv64)
    ensures Drop(Drop(Drop(x))) == x >> 24
  {
  }

  lemma WordIs(x: bv64)
    ensures SextWord(x) == Extended(x, 0xffff_ffff, SignBit(Drop(Drop(Drop(x)))))
  {
    hide SextWord, SignBit, Cut, Drop;
    ThreeDrops(x);
    WordBits(x);
  }

  lemma SextByteNumber(x: bv64)
    ensures SignedOf(SextByte(x)) == MulDiv.Signed(ValueOf(x, 1), 256)
  {
    hide SextByte, Extended, SignBit, SignedOf, Mask, ByteOf, Drop, ValueOf;
    MaskValues();
    Pow256Values();
    ByteIs(x);
    SignBitNumber(x);
    ValueStep(x, 1);
    ValueStep(Drop(x), 0);
    ExtendedNumber(x, 1, 0xff, 256, SignBit(x));
  }

  lemma SextHalfNumber(x: bv64)
    ensures SignedOf(SextHalf(x)) == MulDiv.Signed(ValueOf(x, 2), TWO_16)
  {
    hide SextHalf, Extended, SignBit, SignedOf, Mask, ByteOf, Drop, ValueOf;
    MaskValues();
    Pow256Values();
    HalfIs(x);
    SignBitNumber(Drop(x));
    ValueStep(x, 2);
    ValueStep(Drop(x), 1);
    ValueStep(Drop(Drop(x)), 0);
    ExtendedNumber(x, 2, 0xffff, TWO_16, SignBit(Drop(x)));
  }

  lemma SextWordNumber(x: bv64)
    ensures SignedOf(SextWord(x)) == MulDiv.Signed(ValueOf(x, 4), TWO_32)
  {
    hide SextWord, Extended, SignBit, SignedOf, Mask, ByteOf, Drop, ValueOf;
    MaskValues();
    Pow256Values();
    WordIs(x);
    SignBitNumber(Drop(Drop(Drop(x))));
    ValueStep(x, 4);
    ValueStep(Drop(x), 3);
    ValueStep(Drop(Drop(x)), 2);
    ValueStep(Drop(Drop(Drop(x))), 1);
    ValueStep(Drop(Drop(Drop(Drop(x)))), 0);
    ExtendedNumber(x, 4, 0xffff_ffff, TWO_32, SignBit(Drop(Drop(Drop(x)))));
  }

  lemma ValueStep(x: bv64, n: nat)
    ensures ValueOf(x, n) == if n == 0 then 0 else ByteOf(x) + 256 * ValueOf(Drop(x), n - 1)
  {
    hide ByteOf, Drop;
  }

  /** Immediates and W results: the sign extension of a 32-bit word holds its signed number. */
  lemma ImmediateNumber(imm: bv32)
    ensures SignedOf(Sext32(imm)) == MulDiv.Signed(ValueOf(imm as bv64, 4), TWO_32)
  {
    hide SextWord, SignedOf, ValueOf;
    ImmediateIs(imm);
    SextWordNumber(imm as bv64);
  }

  lemma ImmediateIs(imm: bv32)
    ensures SextWord(imm as bv64) == Sext32(imm)
  {
    hide Sext32;
    SameWord(imm);
  }

  lemma SameWord(imm: bv32)
    ensures LowWord(imm as bv64) == imm
  {
  }

  /** The number of the upper four bytes. */
  function HighValue(x: bv64): nat {
    ValueOf(Drop(Drop(Drop(Drop(x)))), 4)
  }

  lemma Halves(x: bv64)
    ensures FromWord(x) == LowValue(x) + TWO_32 * HighValue(x)
  {
    hide ValueOf, ByteOf, Drop;
    var d1, d2, d3 := Drop(x), Drop(Drop(x)), Drop(Drop(Drop(x)));
    ValueStep(x, 8);
    ValueStep(d1, 7);
    ValueStep(d2, 6);
    ValueStep(d3, 5);
    ValueStep(x, 4);
    ValueStep(d1, 3);
    ValueStep(d2, 2);
    ValueStep(d3, 1);
    ValueStep(Drop(d3), 0);
  }

  /** The low word's number is the number modulo 2^32. */
  lemma LowNumber(x: bv64)
    ensures LowValue(x) == FromWord(x) % TWO_32
  {
    hide FromWord, LowValue, HighValue;
    Halves(x);
  }
}
