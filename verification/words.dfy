/**
  The hand-written 128-bit integers: two 64-bit words, computed in 32-bit
  halves.  Shifts and masks by powers of two are written as division,
  remainder and multiplication; `|` only ever joins disjoint bits.
*/
module Words {
  import opened Digits

  const QUAD: int := BASE * BASE
  const TOP_BIT: int := 0x8000_0000_0000_0000

  datatype LUint = LUint(hi: Word, lo: Word)

  type Int64 = x: int | -TOP_BIT <= x < TOP_BIT

  datatype LSint = LSint(hi: Int64, lo: Word)

  function Value(a: LUint): (v: int)
    ensures 0 <= v < QUAD
  {
    a.hi * BASE + a.lo
  }

  function SignedValue(a: LSint): int { a.hi as int * BASE + a.lo }

  /** (hi << 32) | lo */
  function Join(hi: int, lo: int): Word
    requires 0 <= hi < HALF_BASE && 0 <= lo < HALF_BASE
  {
    hi * HALF_BASE + lo
  }

  function LoHalf(x: int): int { x % HALF_BASE }

  function HiHalf(x: int): int { x / HALF_BASE }

  // ---------------------------------------------------------------- functions

  function FromUint(v: Word): LUint { LUint(0, v) }

  function Eq(a: LUint, b: LUint): bool { a.hi == b.hi && a.lo == b.lo }

  function Lt(a: LUint, b: LUint): bool {
    if a.hi < b.hi then true else if a.hi > b.hi then false else a.lo < b.lo
  }

  function Add(a: LUint, b: LUint): LUint {
    var sumLoLo := LoHalf(a.lo) + LoHalf(b.lo);
    var sumLoHi := HiHalf(a.lo) + HiHalf(b.lo) + HiHalf(sumLoLo);
    var sumHiLo := LoHalf(a.hi) + LoHalf(b.hi) + HiHalf(sumLoHi);
    var sumHiHi := HiHalf(a.hi) + HiHalf(b.hi) + HiHalf(sumHiLo);
    LUint(Join(LoHalf(sumHiHi), LoHalf(sumHiLo)), Join(LoHalf(sumLoHi), LoHalf(sumLoLo)))
  }

  function AddUint(a: LUint, b: Word): LUint {
    var sumLoLo := LoHalf(a.lo) + LoHalf(b);
    var sumLoHi := HiHalf(a.lo) + HiHalf(b) + HiHalf(sumLoLo);
    var sumHiLo := LoHalf(a.hi) + HiHalf(sumLoHi);
    var sumHiHi := HiHalf(a.hi) + HiHalf(sumHiLo);
    LUint(Join(LoHalf(sumHiHi), LoHalf(sumHiLo)), Join(LoHalf(sumLoHi), LoHalf(sumLoLo)))
  }

  /** ~x on 64 bits. */
  function Not(x: Word): Word { BASE - 1 - x }

  function Sub(a: LUint, b: LUint): LUint {
    Add(a, AddUint(LUint(Not(b.hi), Not(b.lo)), 1))
  }

  function Shl(v: LUint, shift: nat): LUint
    requires shift < 128
  {
    if shift == 0 then v
    else if shift >= 64 then LUint(v.lo * Two(shift - 64) % BASE, 0)
    else (ShiftFits(v.hi, v.lo, shift);
          LUint(v.hi * Two(shift) % BASE + v.lo / Two(64 - shift), v.lo * Two(shift) % BASE))
  }

  function MulUint(a: LUint, b: Word): LUint {
    var bLo, bHi := LoHalf(b), HiHalf(b);
    Add(MulHalf(a, bLo), Shl(MulHalf(a, bHi), 32))
  }

  /** The product with a 32-bit number. */
  function MulHalf(a: LUint, b: int): LUint
    requires 0 <= b < HALF_BASE
  {
    HalfProducts(a, b);
    Add(Add(Add(Part0(LoHalf(a.lo) * b), Part1(HiHalf(a.lo) * b)), Part2(LoHalf(a.hi) * b)), Part3(HiHalf(a.hi) * b))
  }

  function FromLsint(v: LSint): LUint { LUint(v.hi as int % BASE, v.lo) }

  function FromLuint(v: LUint): LSint {
    var h: int := v.hi;
    LSint(if h >= TOP_BIT then h - BASE else h, v.lo)
  }

  function Negate(v: LSint): LSint {
    var a := FromLsint(v);
    FromLuint(AddUint(LUint(Not(a.hi), Not(a.lo)), 1))
  }

  function MulSint(a: LSint, b: Int64): LSint {
    var n: int := b;
    if a.hi < 0 then
      var minusA := FromLsint(Negate(a));
      if n < 0 then FromLuint(MulUint(minusA, -n)) else Negate(FromLuint(MulUint(minusA, n)))
    else
      if n < 0 then Negate(FromLuint(MulUint(FromLsint(a), -n))) else FromLuint(MulUint(FromLsint(a), n))
  }

  // ------------------------------------------------------- exact modulo 2^128

  /** Words in halves. */
  lemma Halves(x: Word)
    ensures 0 <= LoHalf(x) < HALF_BASE && 0 <= HiHalf(x) < HALF_BASE && x == HiHalf(x) * HALF_BASE + LoHalf(x)
  {
  }

  /** The sum, but for a carry out of the top. */
  lemma AddExact(a: LUint, b: LUint) returns (carry: int)
    ensures Value(Add(a, b)) == Value(a) + Value(b) - carry * QUAD && 0 <= carry <= 1
  {
    hide LoHalf;
    hide HiHalf;
    Halves(a.lo);
    Halves(a.hi);
    Halves(b.lo);
    Halves(b.hi);
    var s0 := LoHalf(a.lo) + LoHalf(b.lo);
    HalfSum(s0);
    var s1 := HiHalf(a.lo) + HiHalf(b.lo) + HiHalf(s0);
    HalfSum(s1);
    var s2 := LoHalf(a.hi) + LoHalf(b.hi) + HiHalf(s1);
    HalfSum(s2);
    var s3 := HiHalf(a.hi) + HiHalf(b.hi) + HiHalf(s2);
    HalfSum(s3);
    carry := HiHalf(s3);
  }

  lemma HalfSum(x: int)
    requires 0 <= x < 2 * HALF_BASE
    ensures 0 <= LoHalf(x) < HALF_BASE && 0 <= HiHalf(x) <= 1 && x == HiHalf(x) * HALF_BASE + LoHalf(x)
  {
  }

  lemma AddIsModular(a: LUint, b: LUint)
    ensures Value(Add(a, b)) == (Value(a) + Value(b)) % QUAD
  {
    var carry := AddExact(a, b);
    DivModUnique(Value(a) + Value(b), QUAD, carry, Value(Add(a, b)));
  }

  lemma AddUintIsAdd(a: LUint, b: Word)
    ensures AddUint(a, b) == Add(a, FromUint(b))
  {
    hide Join;
    assert LoHalf(0) == 0 && HiHalf(0) == 0;
  }

  lemma NotIsNegative(b: LUint)
    ensures Value(LUint(Not(b.hi), Not(b.lo))) == QUAD - 1 - Value(b)
  {
  }

  lemma SubIsModular(a: LUint, b: LUint)
    ensures Value(Sub(a, b)) == (Value(a) - Value(b)) % QUAD
  {
    hide Add;
    hide AddUint;
    hide Value;
    var n := LUint(Not(b.hi), Not(b.lo));
    NotIsNegative(b);
    AddUintIsAdd(n, 1);
    UintOne();
    var c := AddExact(n, FromUint(1));
    var d := AddExact(a, AddUint(n, 1));
    DivModUnique(Value(a) - Value(b), QUAD, c + d - 1, Value(Sub(a, b)));
  }

  lemma LtIsLess(a: LUint, b: LUint)
    ensures Lt(a, b) <==> Value(a) < Value(b)
    ensures Eq(a, b) <==> Value(a) == Value(b)
  {
  }

  // -------------------------------------------------------------------- shifts

  /** Shifting a word left by less than its width splits it in two. */
  lemma ShiftWord(x: Word, shift: nat)
    requires 0 < shift < 64
    ensures x * Two(shift) == x / Two(64 - shift) * BASE + x * Two(shift) % BASE
    ensures 0 <= x / Two(64 - shift) < Two(shift)
    ensures x * Two(shift) % BASE <= BASE - Two(shift)
  {
    hide Two;
    var d := Two(64 - shift);
    TwoAdd(shift, 64 - shift);
    TwoBase();
    var q, r := x / d, x % d;
    assert x == q * d + r;
    assert x * Two(shift) == q * BASE + r * Two(shift) by {
      MulAssoc(q, d, Two(shift));
      assert (q * d + r) * Two(shift) == q * d * Two(shift) + r * Two(shift);
      assert d * Two(shift) == BASE;
    }
    assert r * Two(shift) <= (d - 1) * Two(shift) == BASE - Two(shift) by {
      MulLe(Two(shift), r, d - 1);
    }
    MulLe(Two(shift), 0, r);
    DivModUnique(x * Two(shift), BASE, q, r * Two(shift));
    QuotientFits(x, d, Two(shift));
  }

  lemma ShiftFits(hi: Word, lo: Word, shift: nat)
    requires 0 < shift < 64
    ensures 0 <= hi * Two(shift) % BASE + lo / Two(64 - shift) < BASE
  {
    hide Two;
    ShiftWord(hi, shift);
    ShiftWord(lo, shift);
  }

  /** A left shift multiplies, but for what is shifted out of the top. */
  lemma ShlExact(v: LUint, shift: nat) returns (out: int)
    requires shift < 128
    ensures Value(Shl(v, shift)) == Value(v) * Two(shift) - out * QUAD
  {
    hide Two;
    if shift == 0 {
      out := 0;
      TwoZero();
    } else if shift >= 64 {
      out := ShlHigh(v, shift);
    } else {
      ShiftWord(v.hi, shift);
      ShiftWord(v.lo, shift);
      out := v.hi / Two(64 - shift);
      SplitWords(v.hi, v.lo, Two(shift));
    }
  }

  lemma SplitWords(hi: int, lo: int, t: int)
    ensures (hi * BASE + lo) * t == hi * t * BASE + lo * t
  {
  }

  lemma ShlHigh(v: LUint, shift: nat) returns (out: int)
    requires 64 <= shift < 128
    ensures v.lo * Two(shift - 64) % BASE * BASE == Value(v) * Two(shift) - out * QUAD
  {
    hide Two;
    var t := Two(shift - 64);
    TwoAdd(shift - 64, 64);
    TwoBase();
    var x := v.lo * t;
    out := v.hi * t + x / BASE;
    assert x == x / BASE * BASE + x % BASE;
    MulAssoc(Value(v), t, BASE);
    SplitWords(v.hi, v.lo, t);
  }

  lemma TwoZero()
    ensures Two(0) == 1 && Two(1) == 2
  {
  }

  lemma ShlIsModular(v: LUint, shift: nat)
    requires shift < 128
    ensures Value(Shl(v, shift)) == Value(v) * Two(shift) % QUAD
  {
    hide Two;
    var out := ShlExact(v, shift);
    DivModUnique(Value(v) * Two(shift), QUAD, out, Value(Shl(v, shift)));
  }

  // ------------------------------------------------------------ multiplication

  lemma HalfProducts(a: LUint, b: int)
    requires 0 <= b < HALF_BASE
    ensures 0 <= LoHalf(a.lo) * b < BASE && 0 <= HiHalf(a.lo) * b < BASE
    ensures 0 <= LoHalf(a.hi) * b < BASE && 0 <= HiHalf(a.hi) * b < BASE
  {
    HalfProduct(LoHalf(a.lo), b);
    HalfProduct(HiHalf(a.lo), b);
    HalfProduct(LoHalf(a.hi), b);
    HalfProduct(HiHalf(a.hi), b);
  }

  lemma HalfProduct(x: int, b: int)
    requires 0 <= x < HALF_BASE && 0 <= b < HALF_BASE
    ensures 0 <= x * b < BASE
  {
    MulLe(x, 0, b);
    MulLe(x, b, HALF_BASE - 1);
  }

  lemma MulHalfExact(a: LUint, b: int) returns (out: int)
    requires 0 <= b < HALF_BASE
    ensures Value(MulHalf(a, b)) == Value(a) * b - out * QUAD
  {
    hide Add;
    hide LoHalf;
    hide HiHalf;
    hide Value;
    hide Part0;
    hide Part1;
    hide Part2;
    hide Part3;
    HalfProducts(a, b);
    Halves(a.lo);
    Halves(a.hi);
    var a0, a1, a2, a3 := LoHalf(a.lo), HiHalf(a.lo), LoHalf(a.hi), HiHalf(a.hi);
    var p0, p1, p2, p3 := Part0(a0 * b), Part1(a1 * b), Part2(a2 * b), Part3(a3 * b);
    PartValues(a0 * b, a1 * b, a2 * b, a3 * b);
    var c1 := AddExact(p0, p1);
    var c2 := AddExact(Add(p0, p1), p2);
    var c3 := AddExact(Add(Add(p0, p1), p2), p3);
    out := c1 + c2 + c3 + a3 * b / HALF_BASE;
    FourTerms(a0, a1, a2, a3, b);
    HalvesValue(a);
    PartSum(a0 * b, a1 * b, a2 * b, a3 * b, c1 + c2 + c3, a3 * b / HALF_BASE, Value(MulHalf(a, b)), Value(a) * b);
  }

  lemma PartSum(t0: int, t1: int, t2: int, t3: int, carry: int, over: int, sum: int, product: int)
    requires product == t3 * (HALF_BASE * BASE) + t2 * BASE + t1 * HALF_BASE + t0
    requires sum == t0 + t1 * HALF_BASE + t2 * BASE + (t3 * (HALF_BASE * BASE) - over * QUAD) - carry * QUAD
    ensures sum == product - (carry + over) * QUAD
  {
    Distribute(carry, over, QUAD);
  }

  /** The four partial products, at their places. */
  function Part0(x: int): LUint requires 0 <= x < BASE { LUint(0, x) }

  function Part1(x: int): LUint requires 0 <= x < BASE { LUint(x / HALF_BASE, x * HALF_BASE % BASE) }

  function Part2(x: int): LUint requires 0 <= x < BASE { LUint(x, 0) }

  function Part3(x: int): LUint requires 0 <= x < BASE { LUint(x * HALF_BASE % BASE, 0) }

  lemma PartValues(x0: int, x1: int, x2: int, x3: int)
    requires 0 <= x0 < BASE && 0 <= x1 < BASE && 0 <= x2 < BASE && 0 <= x3 < BASE
    ensures Value(Part0(x0)) == x0 && Value(Part1(x1)) == x1 * HALF_BASE && Value(Part2(x2)) == x2 * BASE
    ensures Value(Part3(x3)) == x3 * (HALF_BASE * BASE) - x3 / HALF_BASE * QUAD
  {
    ShiftHalf(x1);
    ShiftHalf(x3);
  }

  lemma HalvesValue(a: LUint)
    ensures Value(a) == HiHalf(a.hi) * (HALF_BASE * BASE) + LoHalf(a.hi) * BASE + HiHalf(a.lo) * HALF_BASE + LoHalf(a.lo)
  {
    Halves(a.lo);
    Halves(a.hi);
  }

  lemma ShiftHalf(x: int)
    requires 0 <= x < BASE
    ensures x * HALF_BASE == x / HALF_BASE * BASE + x * HALF_BASE % BASE
  {
    var q, r := x / HALF_BASE, x % HALF_BASE;
    DivModUnique(x * HALF_BASE, BASE, q, r * HALF_BASE);
  }

  lemma FourTerms(a0: int, a1: int, a2: int, a3: int, b: int)
    ensures (a3 * (HALF_BASE * BASE) + a2 * BASE + a1 * HALF_BASE + a0) * b
            == a3 * b * (HALF_BASE * BASE) + a2 * b * BASE + a1 * b * HALF_BASE + a0 * b
  {
  }

  /** The product modulo 2^128. */
  lemma MulIsModular(a: LUint, b: Word)
    ensures Value(MulUint(a, b)) == Value(a) * b % QUAD
  {
    hide Add;
    hide MulHalf;
    hide Shl;
    hide Two;
    Halves(b);
    var lo, hi := LoHalf(b), HiHalf(b);
    var c0 := MulHalfExact(a, lo);
    var c1 := MulHalfExact(a, hi);
    var c2 := ShlExact(MulHalf(a, hi), 32);
    var c3 := AddExact(MulHalf(a, lo), Shl(MulHalf(a, hi), 32));
    assert Two(32) == HALF_BASE by { TwoHalf(); }
    var out := c0 + c1 * HALF_BASE + c2 + c3;
    assert Value(a) * b == Value(a) * hi * HALF_BASE + Value(a) * lo by {
      Split(Value(a), hi, lo);
    }
    DivModUnique(Value(a) * b, QUAD, out, Value(MulUint(a, b)));
  }

  lemma Split(v: int, hi: int, lo: int)
    ensures v * (hi * HALF_BASE + lo) == v * hi * HALF_BASE + v * lo
  {
  }

  lemma TwoHalf()
    ensures Two(32) == HALF_BASE
  {
    assert Two(8) == 256;
    TwoAdd(8, 8);
    TwoAdd(16, 16);
  }

  // ------------------------------------------------------------ signed numbers

  /** The number in -2^127 .. 2^127 - 1 that equals `x` modulo 2^128. */
  function WrapSigned(x: int): int {
    (x + QUAD / 2) % QUAD - QUAD / 2
  }

  lemma WrapUnique(x: int, y: int, k: int)
    requires x == y + k * QUAD && -(QUAD / 2) <= y < QUAD / 2
    ensures WrapSigned(x) == y
  {
    DivModUnique(x + QUAD / 2, QUAD, k, y + QUAD / 2);
  }

  lemma LsintValue(v: LSint)
    ensures Value(FromLsint(v)) == SignedValue(v) + (if v.hi < 0 then QUAD else 0)
    ensures -(QUAD / 2) <= SignedValue(v) < QUAD / 2
  {
  }

  lemma LuintValue(u: LUint)
    ensures SignedValue(FromLuint(u)) == Value(u) - (if u.hi >= TOP_BIT then QUAD else 0)
    ensures -(QUAD / 2) <= SignedValue(FromLuint(u)) < QUAD / 2
  {
  }

  lemma NegateExact(v: LSint) returns (k: int)
    ensures SignedValue(Negate(v)) == -SignedValue(v) + k * QUAD
    ensures -(QUAD / 2) <= SignedValue(Negate(v)) < QUAD / 2
  {
    hide Add;
    hide AddUint;
    hide FromLuint;
    hide FromLsint;
    hide Value;
    hide SignedValue;
    var a := FromLsint(v);
    var n := LUint(Not(a.hi), Not(a.lo));
    LsintValue(v);
    NotIsNegative(a);
    AddUintIsAdd(n, 1);
    var c := AddExact(n, FromUint(1));
    LuintValue(AddUint(n, 1));
    UintOne();
    k := 1 - c - (if v.hi < 0 then 1 else 0) - (if AddUint(n, 1).hi >= TOP_BIT then 1 else 0);
  }

  lemma UintOne()
    ensures Value(FromUint(1)) == 1
  {
  }

  lemma NegateIsModular(v: LSint)
    ensures SignedValue(Negate(v)) == WrapSigned(-SignedValue(v))
  {
    hide SignedValue;
    hide Negate;
    hide WrapSigned;
    var k := NegateExact(v);
    WrapUnique(-SignedValue(v), SignedValue(Negate(v)), -k);
  }

  /** A product of words, read as signed, up to a multiple of 2^128. */
  lemma SignedProduct(u: LUint, w: Word, x: int, i: int) returns (k: int)
    requires Value(u) == x + i * QUAD
    ensures SignedValue(FromLuint(MulUint(u, w))) == x * w + k * QUAD
    ensures -(QUAD / 2) <= SignedValue(FromLuint(MulUint(u, w))) < QUAD / 2
  {
    hide MulUint;
    hide Value;
    hide SignedValue;
    hide FromLuint;
    var p := MulUint(u, w);
    MulIsModular(u, w);
    LuintValue(p);
    var m := Value(u) * w / QUAD;
    assert Value(u) * w == m * QUAD + Value(p);
    assert (x + i * QUAD) * w == x * w + i * w * QUAD;
    k := i * w - m - (if p.hi >= TOP_BIT then 1 else 0);
  }

  /** The signed product modulo 2^128. */
  lemma MulSintIsModular(a: LSint, b: Int64)
    ensures SignedValue(MulSint(a, b)) == WrapSigned(SignedValue(a) * b)
  {
    hide MulUint;
    hide Value;
    hide SignedValue;
    hide FromLuint;
    hide FromLsint;
    hide Negate;
    hide WrapSigned;
    var n: int := b;
    var w: Word := if n < 0 then -n else n;
    var x := SignedValue(a);
    if a.hi < 0 {
      var k := NegateExact(a);
      LsintValue(Negate(a));
      var i := k + if Negate(a).hi < 0 then 1 else 0;
      var j := SignedProduct(FromLsint(Negate(a)), w, -x, i);
      Finish(x, n, -x, w, j, FromLuint(MulUint(FromLsint(Negate(a)), w)), n < 0);
    } else {
      LsintValue(a);
      var j := SignedProduct(FromLsint(a), w, x, 0);
      Finish(x, n, x, w, j, FromLuint(MulUint(FromLsint(a), w)), n >= 0);
    }
  }

  lemma Finish(x: int, n: int, x1: int, w: int, j: int, p: LSint, direct: bool)
    requires SignedValue(p) == x1 * w + j * QUAD && -(QUAD / 2) <= SignedValue(p) < QUAD / 2
    requires if direct then x1 * w == x * n else x1 * w == -(x * n)
    ensures direct ==> SignedValue(p) == WrapSigned(x * n)
    ensures !direct ==> SignedValue(Negate(p)) == WrapSigned(x * n)
  {
    hide Negate;
    hide SignedValue;
    if direct {
      WrapUnique(x * n, SignedValue(p), -j);
    } else {
      var k := NegateExact(p);
      WrapUnique(x * n, SignedValue(Negate(p)), j - k);
    }
  }

  // ------------------------------------------------------------------ division

  lemma UintValues()
    ensures Value(FromUint(0)) == 0 && Value(FromUint(1)) == 1
  {
  }

  lemma TwoTop()
    ensures Two(128) == QUAD && Two(127) == QUAD / 2
  {
    TwoBase();
    TwoAdd(64, 64);
    assert Two(128) == 2 * Two(127);
  }

  lemma DoubleExact(v: LUint)
    requires Value(v) < QUAD / 2
    ensures Value(Shl(v, 1)) == 2 * Value(v)
  {
    hide Shl;
    hide Two;
    ShlIsModular(v, 1);
    TwoZero();
  }

  /** The top bit tells whether the unread part fills its upper half. */
  lemma TopBit(a: LUint, low: int, i: nat)
    requires i < 128 && Value(a) == low * Two(i) && 0 <= low < Two(128 - i)
    ensures a.hi / TOP_BIT % 2 == (if low >= Two(127 - i) then 1 else 0)
  {
    hide Two;
    TwoTop();
    TwoAdd(127 - i, i);
    if low >= Two(127 - i) {
      MulLe(Two(i), Two(127 - i), low);
    } else {
      MulLt(Two(i), low, Two(127 - i));
    }
    Commute(Two(i), low);
    Commute(Two(i), Two(127 - i));
  }

  lemma SetLow(r: LUint, bit: int)
    requires Value(r) % 2 == 0 && 0 <= bit <= 1
    ensures r.lo + bit < BASE && Value(LUint(r.hi, r.lo + bit)) == Value(r) + bit
  {
    assert r.lo % 2 == 0;
  }

  /** Moving one bit from the unread part to the part that was divided. */
  lemma NextBit(a0: int, top: int, low: int, i: nat, bit: int)
    requires i < 128 && a0 == top * Two(128 - i) + low && 0 <= low < Two(128 - i)
    requires bit == if low >= Two(127 - i) then 1 else 0
    ensures a0 == (2 * top + bit) * Two(127 - i) + (low - bit * Two(127 - i))
    ensures 0 <= low - bit * Two(127 - i) < Two(127 - i)
    ensures low * Two(i) * Two(1) % QUAD == (low - bit * Two(127 - i)) * Two(i + 1)
  {
    hide Two;
    var h := Two(127 - i);
    TwoZero();
    TwoTop();
    TwoAdd(127 - i, 1);
    TwoAdd(i, 1);
    TwoAdd(127 - i, i + 1);
    assert top * (h * 2) == (2 * top) * h;
    var rest := low - bit * h;
    assert low * Two(i) * 2 == low * Two(i + 1) by { MulAssoc(low, Two(i), 2); }
    assert low * Two(i + 1) == rest * Two(i + 1) + bit * QUAD by {
      assert (rest + bit * h) * Two(i + 1) == rest * Two(i + 1) + bit * h * Two(i + 1);
      MulAssoc(bit, h, Two(i + 1));
    }
    MulLt(Two(i + 1), rest, h);
    MulLe(Two(i + 1), 0, rest);
    Commute(Two(i + 1), rest);
    Commute(Two(i + 1), h);
    DivModUnique(low * Two(i + 1), QUAD, bit, rest * Two(i + 1));
  }

  lemma DividedSoFar(q: int, r: int, b: int, top: int, bit: int)
    requires top == q * b + r
    ensures 2 * top + bit == 2 * q * b + (2 * r + bit)
    ensures 2 * top + bit == (2 * q + 1) * b + (2 * r + bit - b)
  {
    MulAssoc(2, q, b);
  }

  lemma Even(x: int)
    ensures 2 * x % 2 == 0
  {
  }

  lemma Small(x: int)
    requires 0 <= x < QUAD
    ensures x % QUAD == x
  {
  }

  lemma TwoNext(i: nat)
    ensures Two(i + 1) == 2 * Two(i)
  {
  }

  /** The quotient stays within what was divided. */
  lemma QuotientBound(q: int, b: int, r: int, top: int)
    requires q >= 0 && b >= 1 && r >= 0 && top == q * b + r
    ensures q <= top && r <= top
  {
    MulLe(q, 1, b);
  }

  /** `top` is what was divided before round `i`; `low` is still to be read, and sits at the top of `a`. */
  ghost predicate Dividing(a0: int, b: int, a: LUint, quotient: LUint, remainder: LUint, top: int, low: int, i: nat) {
    && i <= 128
    && a0 == top * Two(128 - i) + low && 0 <= low < Two(128 - i) && Value(a) == low * Two(i)
    && top == Value(quotient) * b + Value(remainder) && Value(remainder) < b && 0 <= top < Two(i)
  }

  /** One bit of the quotient. */
  method DivRound(a0: LUint, a: LUint, b: LUint, q0: LUint, r0: LUint, ghost top: int, ghost low: int, i: nat)
      returns (a1: LUint, quotient: LUint, remainder: LUint, ghost top1: int, ghost low1: int)
    requires Value(b) > 0 && i < 128 && Dividing(Value(a0), Value(b), a, q0, r0, top, low, i)
    ensures Dividing(Value(a0), Value(b), a1, quotient, remainder, top1, low1, i + 1)
  {
    hide Two;
    hide Shl;
    hide Add;
    hide Sub;
    hide Value;
    TwoMono(i, 127);
    TwoTop();
    TwoNext(i);
    QuotientBound(Value(q0), Value(b), Value(r0), top);
    ghost var q, r := Value(q0), Value(r0);
    Even(q);
    Even(r);
    DoubleExact(q0);
    quotient := Shl(q0, 1);
    DoubleExact(r0);
    remainder := Shl(r0, 1);
    var bit := a.hi / TOP_BIT % 2;
    TopBit(a, low, i);
    SetLow(remainder, bit);
    remainder := remainder.(lo := remainder.lo + bit);
    ShlIsModular(a, 1);
    a1 := Shl(a, 1);
    NextBit(Value(a0), top, low, i, bit);
    DividedSoFar(q, r, Value(b), top, bit);
    top1, low1 := 2 * top + bit, low - bit * Two(127 - i);
    LtIsLess(remainder, b);
    if !Lt(remainder, b) {
      SubIsModular(remainder, b);
      Small(Value(remainder) - Value(b));
      remainder := Sub(remainder, b);
      SetLow(quotient, 1);
      quotient := quotient.(lo := quotient.lo + 1);
    }
  }

  /**
    Restoring division, one bit a round.  The remainder before round `i` is
    below 2^i, so shifting it left loses nothing whatever the divisor.
  */
  method Div(a0: LUint, b: LUint) returns (quotient: LUint)
    requires Value(b) != 0
    ensures Value(quotient) == Value(a0) / Value(b)
  {
    hide Two;
    hide Shl;
    hide Add;
    hide Sub;
    hide Value;
    LtIsLess(a0, b);
    UintValues();
    if Lt(a0, b) {
      DivModUnique(Value(a0), Value(b), 0, Value(a0));
      return FromUint(0);
    } else if Eq(a0, b) {
      DivModUnique(Value(a0), Value(b), 1, 0);
      return FromUint(1);
    }
    var a := a0;
    quotient := FromUint(0);
    var remainder := FromUint(0);
    ghost var top, low := 0, Value(a0);
    TwoTop();
    TwoZero();
    for i := 0 to 128
      invariant Dividing(Value(a0), Value(b), a, quotient, remainder, top, low, i)
    {
      a, quotient, remainder, top, low := DivRound(a0, a, b, quotient, remainder, top, low, i);
    }
    assert low == 0 && top == Value(a0) by { TwoZero(); }
    DivModUnique(Value(a0), Value(b), Value(quotient), Value(remainder));
  }
}
