/** Shared vocabulary: error kinds, results, fixed-width integers and powers of 256. */
module Base {

  /** Why the emulator stopped. The source carries only a message string. */
  datatype Error =
    | Unmapped          // no device covers the access
    | BadSize           // device rejects the access width
    | BadWrite          // device rejects the written register or value
    | Overflow          // address or length arithmetic leaves 64 bits
    | BadRange          // zero-sized, overflowing or overlapping reservation
    | BadHartCount
    | UnsupportedMode   // satp.MODE is neither Bare nor Sv39
    | InvalidPte
    | ReservedPte
    | WalkExhausted
    | PermissionDenied
    | MisalignedSuperpage
    | IllegalInstruction
    | ZeroImmediate

  datatype Result<+T> = Ok(value: T) | Err(error: Error) {
    predicate IsFailure() {
      Err?
    }

    function PropagateFailure<U>(): (r: Result<U>)
      requires Err?
    {
      Err(error)
    }

    function Extract(): T
      requires Ok?
    {
      value
    }
  }

  datatype Option<+T> = None | Some(value: T)

  datatype Unit = Unit

  const TWO_16 := 0x1_0000
  const TWO_32 := 0x1_0000_0000
  const TWO_64 := 0x1_0000_0000_0000_0000

  type u8 = x: int | 0 <= x < 256
  type u16 = x: int | 0 <= x < TWO_16
  type u32 = x: int | 0 <= x < TWO_32
  type u64 = x: int | 0 <= x < TWO_64

  /** The number of values an n-byte word can take. */
  function Pow256(n: nat): (r: nat)
    ensures r > 0
  {
    if n == 0 then 1 else 256 * Pow256(n - 1)
  }

  lemma Pow256Values()
    ensures Pow256(1) == 256
    ensures Pow256(2) == TWO_16
    ensures Pow256(4) == TWO_32
    ensures Pow256(8) == TWO_64
  {
    assert Pow256(3) == 256 * Pow256(2);
    assert Pow256(4) == 256 * Pow256(3);
    assert Pow256(5) == 256 * Pow256(4);
    assert Pow256(6) == 256 * Pow256(5);
    assert Pow256(7) == 256 * Pow256(6);
  }
}

/** Division with a variable divisor. */
module Division {
  /** Quotient and remainder are determined by the division equation. */
  lemma RemainderUnique(i: int, num: nat, q: int, r: int)
    requires num > 0 && i == q * num + r && 0 <= r < num
    ensures i % num == r
  {
    SameQuotient(num, q, r, i / num, i % num);
  }

  lemma SameQuotient(num: int, q: int, r: int, p: int, s: int)
    requires 0 <= r < num && 0 <= s < num && q * num + r == p * num + s
    ensures r == s
  {
    assert (p - q) * num == p * num - q * num;
    assert (q - p) * num == q * num - p * num;
    if p > q {
      AtLeast(p - q, num);
    } else if q > p {
      AtLeast(q - p, num);
    }
  }

  lemma AtLeast(d: int, num: int)
    requires d >= 1 && num > 0
    ensures d * num >= num
  {
    assert (d - 1) * num >= 0;
  }

  /** Dividing twice is dividing by the product. */
  lemma DivideTwice(a: int, p: nat)
    requires p > 0
    ensures a / p / 2 == a / (2 * p)
  {
    var q, r := a / p, a % p;
    var h, s := q / 2, q % 2;
    assert a == p * q + r;
    assert p * q == p * (2 * h) + p * s;
    assert a == h * (2 * p) + (p * s + r);
    assert p * s <= p;
    assert s == 1 || s == 0;
    assert 0 <= p * s + r < 2 * p;
    UniqueQuotient(2 * p, h, p * s + r, a / (2 * p), a % (2 * p));
  }

  /** ... in either order. */
  lemma DivideAfter(a: nat, p: nat)
    requires p > 0
    ensures a / 256 / p == a / (256 * p)
  {
    var d, q := a / 256, a / 256 / p;
    assert d == p * q + d % p;
    assert 256 * (p * q) == q * (256 * p);
    assert a == q * (256 * p) + (256 * (d % p) + a % 256);
    UniqueQuotient(256 * p, q, 256 * (d % p) + a % 256, a / (256 * p), a % (256 * p));
  }

  lemma UniqueQuotient(num: int, q: int, r: int, p: int, s: int)
    requires 0 <= r < num && 0 <= s < num && q * num + r == p * num + s
    ensures q == p
  {
    SameQuotient(num, q, r, p, s);
    assert (p - q) * num == p * num - q * num;
    assert (q - p) * num == q * num - p * num;
    if p > q {
      AtLeast(p - q, num);
    } else if q > p {
      AtLeast(q - p, num);
    }
  }
}

/** Machine words as bit vectors and as numbers, converted byte by byte. */
module Words {
  import opened Base

  function ByteOf(x: bv64): u8 {
    ((x & 0xff) as bv8) as int
  }

  function Join(low: u8, high: bv64): bv64 {
    ((low as bv8) as bv64) | (high << 8)
  }

  function Drop(x: bv64): bv64 {
    x >> 8
  }

  /** The number in the n low-order bytes of x. */
  function ValueOf(x: bv64, n: nat): (r: nat)
    ensures r < Pow256(n)
  {
    if n == 0 then 0 else ByteOf(x) + 256 * ValueOf(Drop(x), n - 1)
  }

  /** The word whose n low-order bytes hold v. */
  function WordOf(v: nat, n: nat): bv64 {
    if n == 0 then 0 else Join(v % 256, WordOf(v / 256, n - 1))
  }

  function FromWord(x: bv64): (r: u64) {
    Pow256Values();
    ValueOf(x, 8)
  }

  function ToWord(v: u64): bv64 {
    WordOf(v, 8)
  }

  /** The n low-order bytes set. */
  function Mask(n: nat): bv64 {
    if n == 0 then 0 else MaskByte(Mask(n - 1))
  }

  function MaskByte(m: bv64): bv64 {
    (m << 8) | 0xff
  }

  function Cut(x: bv64, m: bv64): bv64 {
    x & m
  }

  /** The byte of a given number, by counting. */
  function ByteAt(b: nat): (x: bv8)
    requires b < 256
    ensures x as int == b
  {
    if b == 0 then 0
    else
      var x := ByteAt(b - 1);
      NextByte(x);
      x + 1
  }

  lemma NextByte(x: bv8)
    requires x as int < 255
    ensures (x + 1) as int == x as int + 1
  {
  }

  lemma ByteRoundTrip(b: nat)
    requires b < 256
    ensures ((b as bv8) as int) == b
  {
    SameByte(ByteAt(b));
    assert ByteAt(b) as int == b;
  }

  lemma ByteOfJoin(b: u8, x: bv64)
    ensures ByteOf(Join(b, x)) == b
  {
    ByteRoundTrip(b);
    JoinLow(b as bv8, x);
  }

  lemma JoinLow(b: bv8, x: bv64)
    ensures (((b as bv64) | (x << 8)) & 0xff) as bv8 == b
  {
  }

  lemma JoinCut(x: bv64, m: bv64)
    ensures Join(ByteOf(x), Cut(Drop(x), m)) == Cut(x, MaskByte(m))
  {
    SameByte((x & 0xff) as bv8);
    JoinBits(x, m);
  }

  lemma SameByte(b: bv8)
    ensures (b as int) as bv8 == b
  {
  }

  lemma JoinBits(x: bv64, m: bv64)
    ensures (((x & 0xff) as bv8) as bv64) | (((x >> 8) & m) << 8) == x & ((m << 8) | 0xff)
  {
  }

  lemma {:induction false} ZeroWord(n: nat)
    ensures WordOf(0, n) == 0
  {
    if n > 0 {
      ZeroWord(n - 1);
      ZeroJoin();
    }
  }

  lemma ZeroJoin()
    ensures Join(0, 0) == 0
  {
  }

  lemma CutNone(x: bv64)
    ensures Cut(x, 0) == 0
  {
  }

  lemma ValueSplits(x: bv64, n: nat)
    requires n > 0
    ensures ValueOf(x, n) % 256 == ByteOf(x) && ValueOf(x, n) / 256 == ValueOf(Drop(x), n - 1)
  {
    hide ByteOf, Drop;
  }

  /** Number and back: the low bytes survive. */
  lemma {:induction false} WordOfValue(x: bv64, n: nat, m: nat)
    requires n <= m
    ensures WordOf(ValueOf(x, n), m) == Cut(x, Mask(n))
    decreases n
  {
    hide ByteOf, Join, Drop, MaskByte, Cut;
    if n == 0 {
      ZeroWord(m);
      CutNone(x);
    } else {
      ValueSplits(x, n);
      WordOfValue(Drop(x), n - 1, m - 1);
      JoinCut(x, Mask(n - 1));
    }
  }

  /** The top byte is clear. */
  predicate Short(x: bv64) {
    x & 0xff00_0000_0000_0000 == 0
  }

  predicate Within(x: bv64, m: bv64) {
    x & m == x
  }

  lemma MaskValues()
    ensures Mask(0) == 0 && Mask(1) == 0xff && Mask(2) == 0xffff && Mask(3) == 0xff_ffff && Mask(4) == 0xffff_ffff
    ensures Mask(5) == 0xff_ffff_ffff && Mask(6) == 0xffff_ffff_ffff && Mask(7) == 0xff_ffff_ffff_ffff
    ensures Mask(8) == 0xffff_ffff_ffff_ffff
  {
    assert Mask(1) == MaskByte(Mask(0));
    assert Mask(2) == MaskByte(Mask(1));
    assert Mask(3) == MaskByte(Mask(2));
    assert Mask(4) == MaskByte(Mask(3));
    assert Mask(5) == MaskByte(Mask(4));
    assert Mask(6) == MaskByte(Mask(5));
    assert Mask(7) == MaskByte(Mask(6));
  }

  lemma MaskIsShort(n: nat)
    requires n <= 7
    ensures Short(Mask(n))
  {
    MaskValues();
  }

  lemma DropJoin(b: u8, x: bv64)
    requires Short(x)
    ensures Drop(Join(b, x)) == x
  {
    DropBits(b as bv8, x);
  }

  lemma DropBits(b: bv8, x: bv64)
    requires Short(x)
    ensures ((b as bv64) | (x << 8)) >> 8 == x
  {
  }

  lemma ShortWithin(x: bv64, m: bv64)
    requires Within(x, m) && Short(m)
    ensures Short(x)
  {
  }

  lemma JoinWithin(b: u8, x: bv64, m: bv64)
    requires Within(x, m)
    ensures Within(Join(b, x), MaskByte(m))
  {
    JoinWithinBits(b as bv8, x, m);
  }

  lemma JoinWithinBits(b: bv8, x: bv64, m: bv64)
    requires Within(x, m)
    ensures ((b as bv64) | (x << 8)) & ((m << 8) | 0xff) == (b as bv64) | (x << 8)
  {
  }

  lemma ZeroWithin()
    ensures Within(0, 0)
  {
  }

  lemma {:induction false} WordWithin(v: nat, n: nat)
    ensures Within(WordOf(v, n), Mask(n))
    decreases n
  {
    hide Join, MaskByte, Within;
    if n == 0 {
      ZeroWithin();
    } else {
      WordWithin(v / 256, n - 1);
      JoinWithin(v % 256, WordOf(v / 256, n - 1), Mask(n - 1));
    }
  }

  /** Word and back: no number that fits is changed. */
  lemma {:induction false} ValueOfWord(v: nat, n: nat)
    requires n <= 8 && v < Pow256(n)
    ensures ValueOf(WordOf(v, n), n) == v
    decreases n
  {
    hide ByteOf, Join, Drop, Mask, Within, Short;
    if n > 0 {
      var rest := WordOf(v / 256, n - 1);
      WordWithin(v / 256, n - 1);
      MaskIsShort(n - 1);
      ShortWithin(rest, Mask(n - 1));
      DropJoin(v % 256, rest);
      ByteOfJoin(v % 256, rest);
      ValueOfWord(v / 256, n - 1);
    }
  }

  lemma CutAll(x: bv64)
    ensures Cut(x, 0xffff_ffff_ffff_ffff) == x
  {
  }

  /** The two conversions are inverse. */
  lemma WordsRoundTrip(x: bv64, v: u64)
    ensures ToWord(FromWord(x)) == x
    ensures FromWord(ToWord(v)) == v
  {
    hide ValueOf, WordOf, Cut, Mask;
    WordOfValue(x, 8, 8);
    MaskValues();
    CutAll(x);
    Pow256Values();
    ValueOfWord(v, 8);
  }
}
