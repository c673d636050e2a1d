/** The M extension at the level of instructions: what the register results of execute.rs satisfy. */
module Rv64M {
  import opened Base
  import opened Words
  import opened Memory
  import opened Encoding
  import opened Rv64
  import opened MulDiv

  /** Result of an M instruction on two register values. */
  function M(f: bv3, a: bv64, b: bv64): (r: bv64) {
    ToWord(MulDivResult(f, FromWord(a), FromWord(b)))
  }

  /** Result of a W form, where it is assigned. */
  function MW(f: bv3, a: bv64, b: bv64): (r: bv64)
    requires f == 0 || f >= 4
  {
    SextWord(ToWord(MulDivResult32(f, LowValue(a), LowValue(b)).value))
  }

  /** These are what OP and OP-32 write for funct7 = 1 (SLLW's encoding, funct3 = 1, excepted). */
  lemma ExecutesM(f: bv3, a: bv64, b: bv64)
    ensures Op(f, 1, a, b) == Some(M(f, a, b))
    ensures f == 0 || f >= 4 ==> Op32(f, 1, a, b) == Some(MW(f, a, b))
    ensures f == 2 || f == 3 ==> Op32(f, 1, a, b).None?
  {
    hide MulDivResult, MulDivResult32, ToWord, FromWord, LowValue, SextWord;
  }

  function SignedOf(a: bv64): int {
    MulDiv.Signed(FromWord(a), TWO_64)
  }

  lemma Value(v: u64)
    ensures FromWord(ToWord(v)) == v
  {
    hide FromWord, ToWord;
    WordsRoundTrip(0, v);
  }

  /** MULH, MULHSU and MULHU paired with MUL: the exact 128-bit product. */
  lemma ProductsExact(a: bv64, b: bv64)
    ensures SignedOf(M(1, a, b)) * TWO_64 + FromWord(M(0, a, b)) == SignedOf(a) * SignedOf(b)
    ensures SignedOf(M(2, a, b)) * TWO_64 + FromWord(M(0, a, b)) == SignedOf(a) * FromWord(b)
    ensures FromWord(M(3, a, b)) * TWO_64 + FromWord(M(0, a, b)) == FromWord(a) * FromWord(b)
  {
    hide FromWord, ToWord, Signed, Mul, Mulh, Mulhsu, Mulhu;
    var x, y := FromWord(a), FromWord(b);
    Value(MulDivResult(0, x, y));
    Value(MulDivResult(1, x, y));
    Value(MulDivResult(2, x, y));
    Value(MulDivResult(3, x, y));
    MulhExact(x, y);
    MulhsuExact(x, y);
    MulhuExact(x, y);
  }

  /** DIV with REM, DIVU with REMU: q * b + r is a modulo 2^64 for every pair of registers. */
  lemma QuotientsExact(a: bv64, b: bv64)
    ensures (FromWord(M(4, a, b)) * FromWord(b) + FromWord(M(6, a, b))) % TWO_64 == FromWord(a)
    ensures (FromWord(M(5, a, b)) * FromWord(b) + FromWord(M(7, a, b))) % TWO_64 == FromWord(a)
    ensures FromWord(b) != 0 ==>
              && FromWord(M(5, a, b)) * FromWord(b) + FromWord(M(7, a, b)) == FromWord(a)
              && FromWord(M(7, a, b)) < FromWord(b)
  {
    hide FromWord, ToWord, Div, Rem, Divu, Remu;
    var x, y := FromWord(a), FromWord(b);
    Value(MulDivResult(4, x, y));
    Value(MulDivResult(5, x, y));
    Value(MulDivResult(6, x, y));
    Value(MulDivResult(7, x, y));
    DivRemIdentity(x, y, TWO_64);
    DivuRemuIdentity(x, y, TWO_64);
  }

  /** Away from division by zero and MIN / -1: |r| < |b| and a nonzero r has the sign of a. */
  lemma RemainderSigned(a: bv64, b: bv64)
    requires FromWord(b) != 0 && !Overflows(FromWord(a), FromWord(b), TWO_64)
    ensures SignedOf(M(4, a, b)) * SignedOf(b) + SignedOf(M(6, a, b)) == SignedOf(a)
    ensures Abs(SignedOf(M(6, a, b))) < Abs(SignedOf(b))
    ensures SignedOf(M(6, a, b)) != 0 ==> (SignedOf(M(6, a, b)) < 0 <==> SignedOf(a) < 0)
  {
    hide FromWord, ToWord, Div, Rem, Signed;
    var x, y := FromWord(a), FromWord(b);
    Value(MulDivResult(4, x, y));
    Value(MulDivResult(6, x, y));
    DivRemSigned(x, y, TWO_64);
  }

  /** A register holds a sign-extended word. */
  predicate SignExtended(a: bv64) {
    SextWord(a) == a
  }

  lemma SextTwice(a: bv64)
    ensures SignExtended(SextWord(a))
  {
    hide LowWord, Sext32;
    LowOfSext(a);
  }

  lemma CutOfLow(x: bv64, y: bv64)
    requires LowWord(x) == LowWord(y)
    ensures Cut(x, 0xffff_ffff) == Cut(y, 0xffff_ffff)
  {
  }

  lemma SameLowBytes(x: bv64, y: bv64)
    requires LowWord(x) == LowWord(y)
    ensures LowValue(x) == LowValue(y)
  {
    hide ValueOf, WordOf, Cut, Mask, LowWord;
    CutOfLow(x, y);
    MaskValues();
    WordOfValue(x, 4, 4);
    WordOfValue(y, 4, 4);
    ValueOfWord(ValueOf(x, 4), 4);
    ValueOfWord(ValueOf(y, 4), 4);
  }

  lemma LowOfSext(x: bv64)
    ensures LowWord(SextWord(x)) == LowWord(x)
  {
    LowOfSext32(LowWord(x));
    hide LowWord, Sext32;
  }

  lemma ValueW(v: u32)
    ensures LowValue(SextWord(ToWord(v))) == v
  {
    hide ToWord, FromWord, SextWord, LowWord, ValueOf, Low;
    LowOfSext(ToWord(v));
    SameLowBytes(SextWord(ToWord(v)), ToWord(v));
    LowOfValue(ToWord(v), 4, 8);
    Value(v);
    Pow256Values();
    FromIsValue(ToWord(v));
  }

  lemma FromIsValue(x: bv64)
    ensures FromWord(x) == ValueOf(x, 8)
  {
  }

  /** The W forms: low product, and q * b + r is a modulo 2^32, on the low words. */
  lemma WordFormsExact(a: bv64, b: bv64)
    ensures LowValue(MW(0, a, b)) == LowValue(a) * LowValue(b) % TWO_32
    ensures (LowValue(MW(4, a, b)) * LowValue(b) + LowValue(MW(6, a, b))) % TWO_32 == LowValue(a)
    ensures (LowValue(MW(5, a, b)) * LowValue(b) + LowValue(MW(7, a, b))) % TWO_32 == LowValue(a)
    ensures LowValue(b) != 0 ==>
              && LowValue(MW(5, a, b)) * LowValue(b) + LowValue(MW(7, a, b)) == LowValue(a)
              && LowValue(MW(7, a, b)) < LowValue(b)
  {
    hide ToWord, SextWord, LowValue, Div, Rem, Divu, Remu;
    var x, y := LowValue(a), LowValue(b);
    ValueW(MulDivResult32(0, x, y).value);
    ValueW(MulDivResult32(4, x, y).value);
    ValueW(MulDivResult32(5, x, y).value);
    ValueW(MulDivResult32(6, x, y).value);
    ValueW(MulDivResult32(7, x, y).value);
    DivRemIdentity(x, y, TWO_32);
    DivuRemuIdentity(x, y, TWO_32);
  }

  /** The signed number of a low word. */
  function SignedLow32(a: bv64): int {
    MulDiv.Signed(LowValue(a), TWO_32)
  }

  /** DIVW and REMW away from division by zero and MIN / -1, as in 64 bits. */
  lemma WordRemainderSigned(a: bv64, b: bv64)
    requires LowValue(b) != 0 && !Overflows(LowValue(a), LowValue(b), TWO_32)
    ensures SignedLow32(MW(4, a, b)) * SignedLow32(b) + SignedLow32(MW(6, a, b)) == SignedLow32(a)
    ensures Abs(SignedLow32(MW(6, a, b))) < Abs(SignedLow32(b))
    ensures SignedLow32(MW(6, a, b)) != 0 ==> (SignedLow32(MW(6, a, b)) < 0 <==> SignedLow32(a) < 0)
  {
    hide ToWord, SextWord, LowValue, Div, Rem, Signed;
    var x, y := LowValue(a), LowValue(b);
    ValueW(MulDivResult32(4, x, y).value);
    ValueW(MulDivResult32(6, x, y).value);
    DivRemSigned(x, y, TWO_32);
  }

  /** Division by zero: a quotient of ones and the dividend as remainder. */
  lemma ByZero(a: bv64, b: bv64)
    requires FromWord(b) == 0
    ensures FromWord(M(4, a, b)) == TWO_64 - 1 && FromWord(M(5, a, b)) == TWO_64 - 1
    ensures FromWord(M(6, a, b)) == FromWord(a) && FromWord(M(7, a, b)) == FromWord(a)
  {
    hide FromWord, ToWord;
    var x, y := FromWord(a), FromWord(b);
    Value(MulDivResult(4, x, y));
    Value(MulDivResult(5, x, y));
    Value(MulDivResult(6, x, y));
    Value(MulDivResult(7, x, y));
  }

  lemma WordByZero(a: bv64, b: bv64)
    requires LowValue(b) == 0
    ensures LowValue(MW(4, a, b)) == TWO_32 - 1 && LowValue(MW(5, a, b)) == TWO_32 - 1
    ensures LowValue(MW(6, a, b)) == LowValue(a) && LowValue(MW(7, a, b)) == LowValue(a)
  {
    hide ToWord, SextWord, LowValue;
    var x, y := LowValue(a), LowValue(b);
    ValueW(MulDivResult32(4, x, y).value);
    ValueW(MulDivResult32(5, x, y).value);
    ValueW(MulDivResult32(6, x, y).value);
    ValueW(MulDivResult32(7, x, y).value);
  }

  /** MIN / -1: the dividend as quotient and remainder zero, in both widths. */
  lemma Overflowing(a: bv64, b: bv64)
    ensures FromWord(a) == TWO_64 / 2 && FromWord(b) == TWO_64 - 1 ==>
              FromWord(M(4, a, b)) == FromWord(a) && FromWord(M(6, a, b)) == 0
    ensures LowValue(a) == TWO_32 / 2 && LowValue(b) == TWO_32 - 1 ==>
              LowValue(MW(4, a, b)) == LowValue(a) && LowValue(MW(6, a, b)) == 0
  {
    hide FromWord, ToWord, SextWord, LowValue;
    Value(MulDivResult(4, FromWord(a), FromWord(b)));
    Value(MulDivResult(6, FromWord(a), FromWord(b)));
    ValueW(MulDivResult32(4, LowValue(a), LowValue(b)).value);
    ValueW(MulDivResult32(6, LowValue(a), LowValue(b)).value);
  }

  /** Every assigned W form leaves a sign-extended word. */
  lemma WordFormsExtend(f: bv3, a: bv64, b: bv64)
    requires f == 0 || f >= 4
    ensures SignExtended(MW(f, a, b))
  {
    hide ToWord, SextWord, LowValue, MulDivResult32;
    SextTwice(ToWord(MulDivResult32(f, LowValue(a), LowValue(b)).value));
  }
}
