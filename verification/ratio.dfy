/**
  Exact ratios: reduction to lowest terms by Euclid's algorithm with signed
  remainders, and rounding.
*/
module Ratios {
  import Scheme
  import opened Digits
  import opened Bignums
  import opened Addition
  import opened LongDivision
  import opened Numbers

  class Ratio {
    var numerator: Num
    var denominator: Num

    constructor (n: Num, d: Num)
      ensures numerator == n && denominator == d
    {
      numerator, denominator := n, d;
    }
  }

  // ------------------------------------------------------------ divisibility

  /** Euclid's algorithm as the program runs it: the sign of the result depends on the number of steps. */
  function SignedGcd(n: int, d: int): int
    decreases Abs(d)
  {
    if d == 0 then n else (TruncRemSmaller(n, d); SignedGcd(d, Scheme.TruncRem(n, d)))
  }

  lemma TruncRemSmaller(n: int, d: int)
    requires d != 0
    ensures Abs(Scheme.TruncRem(n, d)) < Abs(d)
  {
    TruncatedFixnums(n, d);
  }

  ghost predicate Divides(k: int, x: int) {
    exists m :: x == m * k
  }

  ghost predicate Common(k: int, x: int, y: int) {
    Divides(k, x) && Divides(k, y)
  }

  lemma DividesStep(k: int, n: int, d: int, q: int)
    requires Divides(k, d)
    ensures Divides(k, n) <==> Divides(k, n - d * q)
  {
    var m :| d == m * k;
    assert d * q == q * m * k by { MulAssoc(q, m, k); Commute(d, q); }
    if Divides(k, n) {
      var i :| n == i * k;
      Distribute(i, -(q * m), k);
      assert n - d * q == (i - q * m) * k;
    }
    if Divides(k, n - d * q) {
      var i :| n - d * q == i * k;
      Distribute(i, q * m, k);
      assert n == (i + q * m) * k;
    }
  }

  lemma DividesSelf(k: int)
    ensures Divides(k, k) && Divides(k, 0)
  {
    assert k == 1 * k && 0 == 0 * k;
  }

  /** The common divisors of two numbers are the divisors of what Euclid's algorithm ends with. */
  lemma {:induction false} GcdCommon(n: int, d: int, k: int)
    ensures Common(k, n, d) <==> Divides(k, SignedGcd(n, d))
    decreases Abs(d)
  {
    hide Divides;
    if d == 0 {
      DividesSelf(k);
    } else {
      TruncRemSmaller(n, d);
      GcdCommon(d, Scheme.TruncRem(n, d), k);
      if Divides(k, d) {
        DividesStep(k, n, d, Scheme.TruncQuot(n, d));
      }
    }
  }

  lemma GcdNonzero(n: int, d: int)
    requires n != 0 || d != 0
    ensures SignedGcd(n, d) != 0
  {
    if SignedGcd(n, d) == 0 {
      DividesSelf(0);
      GcdCommon(n, d, 0);
    }
  }

  /** No integer but 1 and -1 divides both. */
  ghost predicate LowestTerms(p: int, q: int) {
    forall k :: Common(k, p, q) ==> Abs(k) == 1
  }

  /** Dividing both numbers by their signed common divisor leaves lowest terms. */
  lemma ReducedTerms(n: int, d: int, p: int, q: int)
    requires d != 0 && n == p * SignedGcd(n, d) && d == q * SignedGcd(n, d)
    ensures LowestTerms(p, q)
  {
    var g := SignedGcd(n, d);
    GcdNonzero(n, d);
    forall k | Common(k, p, q)
      ensures Abs(k) == 1
    {
      var i :| p == i * k;
      var j :| q == j * k;
      MulAssoc(i, k, g);
      MulAssoc(j, k, g);
      assert Divides(k * g, n) && Divides(k * g, d);
      GcdCommon(n, d, k * g);
      var m :| g == m * (k * g);
      UnitFactor(m, k, g);
    }
  }

  lemma UnitFactor(m: int, k: int, g: int)
    requires g != 0 && g == m * (k * g)
    ensures Abs(k) == 1
  {
    MulAssoc(m, k, g);
    assert (m * k - 1) * g == m * k * g - g;
    assert m * k == 1;
    assert Abs(m * k) == Abs(m) * Abs(k);
    if Abs(k) > 1 {
      MulLe(Abs(k), 1, Abs(m));
      Commute(Abs(k), Abs(m));
    }
  }

  lemma Signs(p: int, q: int)
    requires LowestTerms(p, q)
    ensures LowestTerms(-p, -q)
  {
    forall k | Common(k, -p, -q)
      ensures Common(k, p, q)
    {
      var i :| -p == i * k;
      var j :| -q == j * k;
      assert p == (-i) * k && q == (-j) * k;
    }
  }

  // ----------------------------------------------------------- normalisation

  /**
    When reduction comes out right.  It fails for a denominator that is the
    least fixnum, and when the reduced denominator is 2^62 while the signed
    common divisor is negative: then dividing makes the denominator the least
    fixnum, which cannot be negated back.
  */
  predicate Reducible(n: int, d: int) {
    n == 0 || (d != MIN_FIXNUM && !WrapsAtEnd(if d < 0 then -n else n, Abs(d)))
  }

  /** Reduction is right for every positive denominator, unless a negative number is over a multiple of 2^62. */
  lemma {:induction false} AlwaysReducible(n: int, d: int)
    requires d > 0 && (n >= 0 || d % -MIN_FIXNUM != 0)
    ensures Reducible(n, d)
  {
    hide SignedGcd;
    if n >= 0 {
      GcdNatural(n, d);
    } else if WrapsAtEnd(n, d) {
      DivModUnique(d, -MIN_FIXNUM, -SignedGcd(n, d), 0);
    }
  }

  lemma {:induction false} GcdNatural(n: int, d: int)
    requires n >= 0 && d >= 0
    ensures SignedGcd(n, d) >= 0
    decreases d
  {
    if d > 0 {
      TruncRemSmaller(n, d);
      GcdNatural(d, Scheme.TruncRem(n, d));
    }
  }

  /** The smallest failure: -1 / 2^62 keeps the least fixnum as its denominator. */
  lemma NotReducible()
    ensures !Reducible(-1, 0x4000_0000_0000_0000)
  {
    assert -MIN_FIXNUM == 0x4000_0000_0000_0000;
    assert Scheme.TruncRem(-1, -MIN_FIXNUM) == -1 && Scheme.TruncRem(-MIN_FIXNUM, -1) == 0;
    assert SignedGcd(-1, -MIN_FIXNUM) == SignedGcd(-MIN_FIXNUM, -1) == SignedGcd(-1, 0) == -1;
  }

  predicate WrapsAtEnd(n: int, d: int) {
    SignedGcd(n, d) < 0 && d == MIN_FIXNUM * SignedGcd(n, d)
  }

  /** p / q is n / d in lowest terms with a positive denominator. */
  ghost predicate Reduced(n: int, d: int, p: int, q: int) {
    p * d == n * q && q > 0 && LowestTerms(p, q)
  }

  lemma Cross(n: int, d: int, p: int, q: int, g: int)
    requires n == p * g && d == q * g
    ensures p * d == n * q
  {
    MulAssoc(p, g, q);
    Commute(g, q);
  }

  /** The final signs: the denominator is positive unless it wrapped. */
  lemma FinalSigns(n: int, d: int, p: int, q: int)
    requires d > 0 && n != 0
    requires n == p * SignedGcd(n, d) && d == q * SignedGcd(n, d)
    ensures q > 0 ==> Reduced(n, d, p, q)
    ensures q < 0 ==> Reduced(n, d, -p, -q)
    ensures q != 0 && (q == MIN_FIXNUM <==> WrapsAtEnd(n, d))
  {
    var g := SignedGcd(n, d);
    ReducedTerms(n, d, p, q);
    Cross(n, d, p, q, g);
    if q < 0 {
      Signs(p, q);
    }
    ProductSign(q, g);
    if WrapsAtEnd(n, d) {
      SameFactor(q, MIN_FIXNUM, g);
    }
  }

  lemma ProductSign(x: int, y: int)
    requires x * y > 0
    ensures x != 0 && y != 0 && (x > 0 <==> y > 0)
  {
  }

  lemma SameFactor(x: int, y: int, k: int)
    requires k != 0 && x * k == y * k
    ensures x == y
  {
    assert (x - y) * k == 0;
    if x != y {
      AbsFactor(x - y, k);
    }
  }

  lemma NonzeroProduct(x: int, y: int)
    requires x != 0 && y != 0
    ensures x * y != 0
  {
    AbsFactor(x, y);
  }

  /** Reduction is right exactly for reducible inputs. */
  lemma Outcome(n0: int, d0: int, n: int, d: int, g: int, p1: int, q1: int, p: int, q: int)
    requires n0 != 0 && d0 != 0
    requires n == (if d0 < 0 then -n0 else n0) && d == (if d0 == MIN_FIXNUM then d0 else Abs(d0))
    requires g == SignedGcd(n, d) || (n == g == MIN_FIXNUM && d == -MIN_FIXNUM)
    requires n == p1 * g && d == q1 * g
    requires p == (if q1 < 0 then -p1 else p1) && q == (if q1 < 0 && q1 != MIN_FIXNUM then -q1 else q1)
    ensures Reducible(n0, d0) <==> Reduced(n0, d0, p, q)
  {
    GcdNonzero(n, d);
    if d0 == MIN_FIXNUM {
      LeastDenominator(n0, n, g, p1, q1, p, q);
    } else if g != SignedGcd(n, d) {
      EdgeTerms(n, d, g, p1, q1);
      Opposite(n0, d0, n, d, p, q);
    } else {
      FinalSigns(n, d, p1, q1);
      Opposite(n0, d0, n, d, p, q);
    }
  }

  lemma Opposite(n0: int, d0: int, n: int, d: int, p: int, q: int)
    requires (n == n0 && d == d0) || (n == -n0 && d == -d0)
    ensures Reduced(n0, d0, p, q) <==> Reduced(n, d, p, q)
  {
    assert p * -d0 == -(p * d0) && -n0 * q == -(n0 * q);
  }

  lemma EdgeTerms(n: int, d: int, g: int, p: int, q: int)
    requires n == g == MIN_FIXNUM && d == -MIN_FIXNUM && n == p * g && d == q * g
    ensures p == 1 && q == -1 && Reduced(n, d, -1, 1) && !WrapsAtEnd(n, d)
  {
    assert (p - 1) * g == 0 && (q + 1) * g == 0 by {
      Distribute(p, -1, g);
      Distribute(q, 1, g);
    }
    assert Scheme.TruncRem(n, d) == 0 && SignedGcd(n, d) == SignedGcd(d, 0) == d;
    forall k | Common(k, -1, 1)
      ensures Abs(k) == 1
    {
      var m :| 1 == m * k;
      UnitFactor(m, k, 1);
    }
  }

  /** With the least fixnum as denominator the value or its sign is lost. */
  lemma LeastDenominator(n0: int, n: int, g: int, p1: int, q1: int, p: int, q: int)
    requires n0 != 0 && n == -n0 && g != 0
    requires n == p1 * g && MIN_FIXNUM == q1 * g
    requires p == (if q1 < 0 then -p1 else p1) && q == (if q1 < 0 && q1 != MIN_FIXNUM then -q1 else q1)
    ensures !(p * MIN_FIXNUM == n0 * q && q > 0)
  {
    Cross(n, MIN_FIXNUM, p1, q1, g);
    assert -p1 * MIN_FIXNUM == -(p1 * MIN_FIXNUM);
    assert -n * -q1 == n * q1 && -n * q1 == -(n * q1);
    NonzeroProduct(n, q1);
  }

  ghost function Repr(x: Num): set<object> {
    if x.Big? then {x.b} else {}
  }

  ghost predicate Separate(x: Num, y: Num) {
    x.Big? && y.Big? ==> Apart(x.b, y.b)
  }

  /** Negate both parts when the denominator is negative; a numerator about to wrap becomes a bignum first. */
  method FlipSigns(rat: Ratio)
    requires ValidNum(rat.numerator) && ValidNum(rat.denominator) && Separate(rat.numerator, rat.denominator)
    requires rat.denominator.Big? ==> NumValue(rat.denominator) != 0
    modifies rat, Repr(rat.numerator), Repr(rat.denominator)
    ensures ValidNum(rat.numerator) && ValidNum(rat.denominator) && Separate(rat.numerator, rat.denominator)
    ensures var n, d := old(NumValue(rat.numerator)), old(NumValue(rat.denominator));
            && NumValue(rat.numerator) == (if d < 0 then -n else n)
            && NumValue(rat.denominator) == (if d < 0 && old(rat.denominator) != Fix(MIN_FIXNUM) then -d else d)
    ensures rat.numerator == old(rat.numerator) || FreshNum(rat.numerator)
    ensures rat.denominator == old(rat.denominator) || rat.denominator.Fix?
    ensures old(rat.denominator).Fix? == rat.denominator.Fix?
    ensures old(rat.numerator).Fix? && old(rat.numerator) != Fix(MIN_FIXNUM) ==> rat.numerator.Fix?
  {
    hide Val;
    hide Wrap;
    assert Wrap(-MIN_FIXNUM) == MIN_FIXNUM by { WrapLeast(); }
    var negative := IsNegative(rat.denominator);
    if negative {
      if rat.numerator == Fix(MIN_FIXNUM) {
        var t := FromFixnum(MIN_FIXNUM);
        rat.numerator := Big(t);
      }
      rat.numerator := NegateExact(rat.numerator);
      rat.denominator := NegateExact(rat.denominator);
    }
  }

  lemma WrapLeast()
    ensures Wrap(-MIN_FIXNUM) == MIN_FIXNUM
  {
  }

  /** One remainder, right except on the edge. */
  lemma EuclidStep(a: Num, b: Num, r: Num)
    requires ValidNum(a) && Normal(b) && NumValue(b) != 0 && ValidNum(r)
    requires if a.Fix? && b.Big? then r == a else exists q :: Truncated(NumValue(a), NumValue(b), q, NumValue(r))
    ensures !Edge(a, b) ==> SignedGcd(NumValue(b), NumValue(r)) == SignedGcd(NumValue(a), NumValue(b))
                            && Abs(NumValue(r)) < Abs(NumValue(b))
    ensures Edge(a, b) ==> SignedGcd(NumValue(b), NumValue(r)) == MIN_FIXNUM && Abs(NumValue(r)) == Abs(NumValue(b))
  {
    hide Val;
    hide SignedGcd;
    hide Truncated;
    if Edge(a, b) {
      EdgeGcd();
    } else if a.Fix? && b.Big? {
      SmallDividend(NumValue(a), NumValue(b));
      GcdStep(NumValue(a), NumValue(b), 0, NumValue(a));
    } else {
      var q :| Truncated(NumValue(a), NumValue(b), q, NumValue(r));
      GcdStep(NumValue(a), NumValue(b), q, NumValue(r));
    }
  }

  lemma EdgeGcd()
    ensures SignedGcd(-MIN_FIXNUM, MIN_FIXNUM) == MIN_FIXNUM
  {
    assert Scheme.TruncRem(-MIN_FIXNUM, MIN_FIXNUM) == 0;
    GcdEnd(MIN_FIXNUM);
  }

  lemma SmallDividend(a: int, b: int)
    requires Abs(a) < Abs(b)
    ensures Truncated(a, b, 0, a)
  {
  }

  lemma GcdStep(a: int, b: int, q: int, r: int)
    requires b != 0 && Truncated(a, b, q, r)
    ensures SignedGcd(b, r) == SignedGcd(a, b) && Abs(r) < Abs(b)
  {
    hide Scheme.TruncQuot;
    hide Scheme.TruncRem;
    TruncatedFixnums(a, b);
    TruncatedUnique(a, b, q, r, Scheme.TruncQuot(a, b), Scheme.TruncRem(a, b));
  }

  lemma GcdEnd(n: int)
    ensures SignedGcd(n, 0) == n
  {
  }

  /** Euclid's loop; when the least fixnum meets 2^62 it takes one step more than it should. */
  method Euclid(num0: Num, den0: Num) returns (num: Num)
    requires ValidNum(num0) && Normal(den0) && num0 != Fix(0) && NumValue(den0) != 0
    ensures ValidNum(num) && (num0.Fix? || den0.Fix? ==> num.Fix?)
    ensures NumValue(num) == if Edge(num0, den0) then MIN_FIXNUM else SignedGcd(NumValue(num0), NumValue(den0))
  {
    hide Val;
    hide SignedGcd;
    hide Truncated;
    ghost var n, d := NumValue(num0), NumValue(den0);
    num := num0;
    var den := den0;
    while den != Fix(0)
      invariant ValidNum(num) && Normal(den)
      invariant (num == num0 && den == den0)
                || (den0.Fix? && num.Fix? && den.Fix?)
                || (num0.Fix? && den.Fix? && (num.Fix? || den != Fix(0)))
                || (!num0.Fix? && !den0.Fix? && (num.Fix? ==> den.Fix?))
      invariant if Edge(num0, den0) && den != den0
                then SignedGcd(NumValue(num), NumValue(den)) == MIN_FIXNUM
                else SignedGcd(NumValue(num), NumValue(den)) == SignedGcd(n, d)
      decreases Abs(NumValue(den)), den.Big?
    {
      var tmp := RemainderNum(num, den);
      EuclidStep(num, den, tmp);
      num, den := den, tmp;
    }
    GcdEnd(NumValue(num));
  }

  datatype Normalized = ZeroDenominator | Integer(n: Num) | Fraction

  ghost function Top(r: Normalized, rat: Ratio): int
    reads rat, Repr(rat.numerator), if rat.numerator.Big? then {rat.numerator.b.data} else {}
    reads if r.Integer? && r.n.Big? then {r.n.b, r.n.b.data} else {}
  {
    if r.Integer? then NumValue(r.n) else NumValue(rat.numerator)
  }

  ghost function Bottom(r: Normalized, rat: Ratio): int
    reads rat, Repr(rat.denominator), if rat.denominator.Big? then {rat.denominator.b.data} else {}
  {
    if r.Integer? then 1 else NumValue(rat.denominator)
  }

  /** Reduce in place: the result is the same rational in lowest terms exactly for reducible inputs. */
  method NormalizeRatio(rat: Ratio) returns (r: Normalized)
    requires Normal(rat.numerator) && Normal(rat.denominator) && Separate(rat.numerator, rat.denominator)
    modifies rat, Repr(rat.numerator), Repr(rat.denominator)
    ensures r.ZeroDenominator? <==> old(NumValue(rat.denominator)) == 0
    ensures r.Integer? ==> Normal(r.n)
    ensures r.Fraction? ==> Normal(rat.numerator) && Normal(rat.denominator) && NumValue(rat.denominator) != 1
    ensures !r.ZeroDenominator? ==>
              (Reducible(old(NumValue(rat.numerator)), old(NumValue(rat.denominator)))
               <==> Reduced(old(NumValue(rat.numerator)), old(NumValue(rat.denominator)), Top(r, rat), Bottom(r, rat)))
  {
    hide Val;
    hide SignedGcd;
    hide Reducible;
    hide Reduced;
    hide Truncated;
    ghost var n0, d0 := NumValue(rat.numerator), NumValue(rat.denominator);
    assert rat.denominator == Fix(MIN_FIXNUM) <==> d0 == MIN_FIXNUM;
    FlipSigns(rat);
    if rat.denominator == Fix(0) {
      return ZeroDenominator;
    } else if rat.numerator == Fix(0) {
      ZeroReduced(d0);
      return Integer(Fix(0));
    }
    ghost var n, d := NumValue(rat.numerator), NumValue(rat.denominator);
    ghost var g := DivideOut(rat);
    ghost var p1, q1 := NumValue(rat.numerator), NumValue(rat.denominator);
    assert rat.denominator == Fix(MIN_FIXNUM) <==> q1 == MIN_FIXNUM;
    FlipSigns(rat);
    NormalizeParts(rat);
    Outcome(n0, d0, n, d, g, p1, q1, NumValue(rat.numerator), NumValue(rat.denominator));
    if rat.denominator == Fix(1) {
      return Integer(rat.numerator);
    }
    return Fraction;
  }

  method NormalizeParts(rat: Ratio)
    requires ValidNum(rat.numerator) && ValidNum(rat.denominator)
    modifies rat
    ensures Normal(rat.numerator) && NumValue(rat.numerator) == old(NumValue(rat.numerator))
    ensures Normal(rat.denominator) && NumValue(rat.denominator) == old(NumValue(rat.denominator))
  {
    hide Val;
    rat.numerator := NormalizeNum(rat.numerator);
    rat.denominator := NormalizeNum(rat.denominator);
  }

  /** Divide both parts by what Euclid's loop ends with. */
  method DivideOut(rat: Ratio) returns (ghost g: int)
    requires ValidNum(rat.numerator) && Normal(rat.denominator) && Separate(rat.numerator, rat.denominator)
    requires rat.numerator != Fix(0) && rat.denominator != Fix(0)
    modifies rat
    ensures ValidNum(rat.numerator) && Normal(rat.denominator) && Separate(rat.numerator, rat.denominator)
    ensures var n, d := old(NumValue(rat.numerator)), old(NumValue(rat.denominator));
            && (g == SignedGcd(n, d) || (n == g == MIN_FIXNUM && d == -MIN_FIXNUM))
            && n == NumValue(rat.numerator) * g && d == NumValue(rat.denominator) * g
    ensures rat.numerator == old(rat.numerator) || FreshNum(rat.numerator)
    ensures rat.denominator == old(rat.denominator) || FreshNum(rat.denominator)
  {
    hide Val;
    hide SignedGcd;
    hide Truncated;
    hide Divides;
    ghost var n, d := NumValue(rat.numerator), NumValue(rat.denominator);
    var num := Euclid(rat.numerator, rat.denominator);
    g := NumValue(num);
    GcdDivides(n, d, g);
    rat.denominator := QuotientNum(rat.denominator, num);
    ExactQuotient(d, g, NumValue(rat.denominator));
    rat.numerator := QuotientNum(rat.numerator, num);
    ExactQuotient(n, g, NumValue(rat.numerator));
  }

  lemma ZeroReduced(d: int)
    ensures Reducible(0, d) && Reduced(0, d, 0, 1)
  {
    forall k | Common(k, 0, 1)
      ensures Abs(k) == 1
    {
      var m :| 1 == m * k;
      UnitFactor(m, k, 1);
    }
  }

  lemma GcdDivides(n: int, d: int, g: int)
    requires d != 0 && (g == SignedGcd(n, d) || (n == g == MIN_FIXNUM && d == -MIN_FIXNUM))
    ensures g != 0 && Divides(g, n) && Divides(g, d)
  {
    if g == SignedGcd(n, d) {
      GcdNonzero(n, d);
      DividesSelf(g);
      GcdCommon(n, d, g);
    } else {
      assert n == 1 * g && d == -1 * g;
    }
  }

  lemma ExactQuotient(x: int, g: int, q: int)
    requires g != 0 && Divides(g, x) && Truncated(x, g, q, x - q * g)
    ensures x == q * g
  {
    var m :| x == m * g;
    TruncatedUnique(x, g, q, x - q * g, m, 0);
  }
}
