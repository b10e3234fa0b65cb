/**
  Floor, ceiling and round-half-even of ratios in lowest terms.
*/
module Rounding {
  import opened Digits
  import opened Bignums
  import opened Addition
  import opened LongDivision
  import opened Numbers
  import opened Ratios

  /** A ratio that is no integer: a positive denominator above one, in lowest terms. */
  ghost predicate Proper(rat: Ratio)
    reads rat, Repr(rat.numerator), Repr(rat.denominator)
    reads if rat.numerator.Big? then {rat.numerator.b.data} else {}
    reads if rat.denominator.Big? then {rat.denominator.b.data} else {}
  {
    && Normal(rat.numerator) && Normal(rat.denominator)
    && NumValue(rat.denominator) > 1 && LowestTerms(NumValue(rat.numerator), NumValue(rat.denominator))
  }

  /** The truncated quotient of a proper ratio always leaves a remainder. */
  method Truncate(rat: Ratio) returns (q: Num, ghost r: int)
    requires Proper(rat)
    ensures Normal(q) && r != 0
    ensures Truncated(NumValue(rat.numerator), NumValue(rat.denominator), NumValue(q), r)
  {
    hide Val;
    hide Truncated;
    hide LowestTerms;
    ghost var n, d := NumValue(rat.numerator), NumValue(rat.denominator);
    q := QuotientNum(rat.numerator, rat.denominator);
    r := n - NumValue(q) * d;
    if rat.numerator.Fix? && rat.denominator.Big? {
      if Abs(n) == d {
        NoCommon(n, d, d, if n < 0 then -1 else 1, 1);
      }
      SmallDividend(n, d);
    }
    if r == 0 {
      NoCommon(n, d, d, NumValue(q), 1);
    }
  }

  lemma NoCommon(n: int, d: int, k: int, i: int, j: int)
    requires LowestTerms(n, d) && n == i * k && d == j * k
    ensures Abs(k) == 1
  {
    assert Common(k, n, d);
  }

  method Floor(rat: Ratio) returns (q: Num)
    requires Proper(rat)
    ensures Normal(q) && NumValue(q) == NumValue(rat.numerator) / NumValue(rat.denominator)
  {
    hide Val;
    hide Truncated;
    hide Proper;
    Parts(rat);
    ghost var n, d := NumValue(rat.numerator), NumValue(rat.denominator);
    ghost var r;
    q, r := Truncate(rat);
    FloorOf(n, d, NumValue(q), r);
    var negative := IsNegative(rat.numerator);
    if negative {
      q := AddNum(q, Fix(-1));
    }
  }

  lemma Parts(rat: Ratio)
    requires Proper(rat)
    ensures Normal(rat.numerator) && Normal(rat.denominator) && NumValue(rat.denominator) > 1
    ensures LowestTerms(NumValue(rat.numerator), NumValue(rat.denominator))
  {
  }

  lemma FloorOf(n: int, d: int, q: int, r: int)
    requires Truncated(n, d, q, r) && r != 0 && d > 1
    ensures n / d == if n < 0 then q - 1 else q
  {
    if n < 0 {
      Distribute(q, -1, d);
      DivModUnique(n, d, q - 1, r + d);
    } else {
      DivModUnique(n, d, q, r);
    }
  }

  method Ceiling(rat: Ratio) returns (q: Num)
    requires Proper(rat)
    ensures Normal(q) && NumValue(q) == -(-NumValue(rat.numerator) / NumValue(rat.denominator))
  {
    hide Val;
    hide Truncated;
    hide Proper;
    Parts(rat);
    ghost var n, d := NumValue(rat.numerator), NumValue(rat.denominator);
    ghost var r;
    q, r := Truncate(rat);
    NonzeroTop(n, d, NumValue(q), r);
    TruncatedNegative(n, d, NumValue(q), r);
    FloorOf(-n, d, -NumValue(q), -r);
    var positive := IsPositive(rat.numerator);
    if positive {
      q := AddNum(q, Fix(1));
    }
  }

  /** The strict sign test. */
  method IsPositive(x: Num) returns (positive: bool)
    requires Normal(x)
    ensures positive <==> NumValue(x) > 0
  {
    match x
    case Fix(n) => positive := n > 0;
    case Big(b) => positive := b.sign > 0;
  }

  lemma TruncatedNegative(n: int, d: int, q: int, r: int)
    requires Truncated(n, d, q, r) && n != 0
    ensures Truncated(-n, d, -q, -r)
  {
    Negated(q, d);
  }

  lemma NonzeroTop(n: int, d: int, q: int, r: int)
    requires Truncated(n, d, q, r) && r != 0
    ensures n != 0
  {
    if q != 0 {
      AbsFactor(q, d);
    }
  }

  // ------------------------------------------------------------------ round

  /** Nearest integer, and the even one of two. */
  ghost predicate Nearest(n: int, d: int, q: int) {
    2 * Abs(n - q * d) <= d && (2 * Abs(n - q * d) == d ==> q % 2 == 0)
  }

  method IsOdd(x: Num) returns (odd: bool)
    requires ValidNum(x)
    ensures odd <==> NumValue(x) % 2 == 1
  {
    match x
    case Fix(n) => odd := n % 2 == 1;
    case Big(b) =>
      odd := b.data[0] % 2 == 1;
      assert Val(b.data[..]) == b.data[0] + BASE * Val(b.data[..][1..]);
  }

  method Round(rat: Ratio) returns (q: Num)
    requires Proper(rat)
    ensures Normal(q) && Nearest(NumValue(rat.numerator), NumValue(rat.denominator), NumValue(q))
  {
    hide Val;
    hide Truncated;
    hide Nearest;
    hide Proper;
    hide LowestTerms;
    Parts(rat);
    ghost var n, d := NumValue(rat.numerator), NumValue(rat.denominator);
    ghost var r;
    q, r := Truncate(rat);
    ghost var q0 := NumValue(q);
    NonzeroTop(n, d, q0, r);
    NearestOf(n, d, q0, r);
    var odd := IsOdd(q);
    if rat.denominator == Fix(2) && odd {
      var up := IsPositive(q);
      q := AddNum(q, Fix(if up then 1 else -1));
    } else {
      assert n == NumValue(rat.numerator) && d == NumValue(rat.denominator);
      var above := TwiceAbove(rat, q0, r);
      if above {
        var negative := IsNegative(rat.numerator);
        q := AddNum(q, Fix(if negative then -1 else 1));
      }
    }
  }

  /** Is twice the remainder above the denominator?  Wrapping twice still gives the right answer. */
  method TwiceAbove(rat: Ratio, ghost q: int, ghost r: int) returns (above: bool)
    requires Normal(rat.numerator) && Normal(rat.denominator) && NumValue(rat.denominator) > 1
    requires LowestTerms(NumValue(rat.numerator), NumValue(rat.denominator))
    requires Truncated(NumValue(rat.numerator), NumValue(rat.denominator), q, r) && r != 0
    ensures above <==> 2 * Abs(r) > NumValue(rat.denominator)
  {
    hide Val;
    hide Wrap;
    hide Truncated;
    hide LowestTerms;
    hide Comparable;
    hide Plain;
    hide Ordered;
    var rem := RemainderNum(rat.numerator, rat.denominator);
    SameRemainder(rat, rem, q, r);
    rem := MulNum(rem, Fix(2));
    assert NumValue(rem) == 2 * r;
    var negative := IsNegative(rem);
    ghost var least := rem == Fix(MIN_FIXNUM);
    if negative {
      rem := NegateExact(rem);
      WrapLeast();
    }
    assert if least then rem == Fix(MIN_FIXNUM) && 2 * Abs(r) == -MIN_FIXNUM else NumValue(rem) == 2 * Abs(r);
    var order := CompareNum(rem, rat.denominator);
    OrderAbove(rem, rat.denominator, order, least, 2 * Abs(r));
    above := order > 0;
  }

  /** The order of the doubled remainder, even where it wrapped, tells what is above. */
  lemma OrderAbove(rem: Num, d: Num, order: int, least: bool, twice: int)
    requires Normal(rem) && Normal(d) && NumValue(d) > 1
    requires if least then rem == Fix(MIN_FIXNUM) && twice == -MIN_FIXNUM else NumValue(rem) == twice >= 0
    requires Plain(rem) && Plain(d) ==> (Ordered(order, NumValue(rem), NumValue(d)) <==> Comparable(rem, d))
    requires rem.Fix? && d.Fix? ==> order == Wrap(rem.n as int - d.n)
    ensures order > 0 <==> twice > NumValue(d)
  {
    hide Val;
    hide Wrap;
    WrapDifference(if rem.Fix? then rem.n else 0, if d.Fix? then d.n else 1);
  }

  lemma WrapDifference(x: Fixnum, d: Fixnum)
    requires d > 0
    ensures x >= 0 ==> Wrap(x as int - d) == x as int - d
    ensures x == MIN_FIXNUM ==> Wrap(x as int - d) == -MIN_FIXNUM - d
  {
  }

  lemma SameRemainder(rat: Ratio, rem: Num, q: int, r: int)
    requires Proper(rat) && Truncated(NumValue(rat.numerator), NumValue(rat.denominator), q, r) && Normal(rem)
    requires if rat.numerator.Fix? && rat.denominator.Big? then rem == rat.numerator
             else exists q1 :: Truncated(NumValue(rat.numerator), NumValue(rat.denominator), q1, NumValue(rem))
    ensures NumValue(rem) == r
  {
    hide Val;
    hide Truncated;
    hide LowestTerms;
    var n, d := NumValue(rat.numerator), NumValue(rat.denominator);
    if rat.numerator.Fix? && rat.denominator.Big? {
      if Abs(n) == d {
        NoCommon(n, d, d, if n < 0 then -1 else 1, 1);
      }
      SmallDividend(n, d);
      TruncatedUnique(n, d, q, r, 0, n);
    } else {
      var q1 :| Truncated(n, d, q1, NumValue(rem));
      TruncatedUnique(n, d, q, r, q1, NumValue(rem));
    }
  }

  /** Which neighbour of the truncated quotient is nearest. */
  lemma NearestOf(n: int, d: int, q: int, r: int)
    requires LowestTerms(n, d) && d > 1
    requires Truncated(n, d, q, r) && r != 0 && n != 0
    ensures d == 2 && q % 2 == 1 ==> Nearest(n, d, q + if q > 0 then 1 else -1)
    ensures d != 2 || q % 2 == 0 ==> Nearest(n, d, if 2 * Abs(r) > d then q + (if n < 0 then -1 else 1) else q)
  {
    Distribute(q, 1, d);
    Distribute(q, -1, d);
    if 2 * Abs(r) == d {
      HalfIsTwo(n, d, q, r);
    }
    if d == 2 {
      Halfway(n, q, r);
    } else {
      Neighbour(n, d, q, q * d, r);
    }
  }

  /** Between two integers both are nearest, and one is even. */
  lemma Halfway(n: int, q: int, r: int)
    requires Truncated(n, 2, q, r) && r != 0
    ensures q % 2 == 1 ==> Nearest(n, 2, q + if q > 0 then 1 else -1)
    ensures q % 2 == 0 ==> Nearest(n, 2, q)
  {
  }

  lemma Neighbour(n: int, d: int, q: int, x: int, r: int)
    requires Truncated(n, d, q, r) && r != 0 && x == q * d && 2 * Abs(r) != d && d > 1
    requires (q + 1) * d == x + d && (q - 1) * d == x - d
    ensures Nearest(n, d, if 2 * Abs(r) > d then q + (if n < 0 then -1 else 1) else q)
  {
  }

  /** In lowest terms only a denominator of two can be halfway. */
  lemma HalfIsTwo(n: int, d: int, q: int, r: int)
    requires LowestTerms(n, d) && n == q * d + r && 2 * Abs(r) == d > 0
    ensures d == 2
  {
    var k := Abs(r);
    var j := if r < 0 then -1 else 1;
    assert q * (2 * k) == (2 * q) * k;
    Distribute(2 * q, j, k);
    NoCommon(n, d, k, 2 * q + j, 2);
  }
}
