/**
  The exact integer square root of a bignum by the Babylonian method.

  The starting estimate comes from floating point; here it is any positive
  integer, as a fixnum or as a bignum of any size, normal or not.  At most one
  step goes up, and from then on the estimate falls towards the root without
  passing it.
*/
module SquareRoots {
  import opened Options
  import opened Digits
  import opened Bignums
  import opened Addition
  import Multiplication
  import opened LongDivision
  import opened Numbers

  /** Is `res` less than the integer square root of `a`? */
  predicate Low(res: int, a: int) {
    (res + 1) * (res + 1) <= a
  }

  /** Any estimate steps to one that is not below the root, and a high one to a lower one. */
  lemma Step(a: int, res: int)
    requires a > 0 && res > 0
    ensures !Low((res + a / res) / 2, a) && (res + a / res) / 2 > 0
    ensures res * res > a ==> (res + a / res) / 2 < res
  {
    var q := a / res;
    var m := (res + q) / 2 + 1;
    QuotientBelow(a, res);
    DivModUnique(a, res, q, a % res);
    NotPassed(a, res, q, a % res, m);
    AboveOne(m);
    if res * res > a && q >= res {
      MulLe(res, res, q);
      Commute(q, res);
    }
  }

  /** The mean of `res` and `a / res`, rounded down, is not below the root of `a`. */
  lemma NotPassed(a: int, res: int, q: int, r: int, m: int)
    requires res > 0 && q >= 0 && a == q * res + r && r < res && res + q + 1 <= 2 * m
    ensures m * m > a
  {
    Regroup(q, 1, res, 1);
    Squares(res, q + 1);
    SquareMono(res + (q + 1), 2 * m);
    FourSquares(m);
  }

  lemma AboveOne(m: int)
    requires m * m > 1 && m >= 0
    ensures m > 1
  {
  }

  lemma FourSquares(m: int)
    ensures (2 * m) * (2 * m) == 4 * (m * m)
  {
  }

  lemma SquareMono(x: int, y: int)
    requires 0 <= x <= y
    ensures x * x <= y * y
  {
    MulLe(x, x, y);
    MulLe(y, x, y);
    Commute(x, y);
  }

  lemma Squares(x: int, y: int)
    ensures (x + y) * (x + y) >= 4 * (y * x)
  {
    assert (x + y) * (x + y) == (x - y) * (x - y) + 4 * (y * x);
    assert (x - y) * (x - y) >= 0;
  }

  /** The test `(rem - 1) / 2 < res` stops exactly below the next square. */
  lemma Stops(a: int, res: int, rem: int, half: int)
    requires res > 0 && rem == a - res * res >= 0
    requires Truncated(rem - 1, 2, half, rem - 1 - half * 2)
    ensures half >= 0 && (half < res <==> !Low(res, a))
  {
    assert (res + 1) * (res + 1) == res * res + 2 * res + 1;
  }

  // -------------------------------------------------------- starting estimates

  /** The integer part of a floating-point number as a bignum, which stays one however small the number. */
  method WholeToBignum(f0: int) returns (res: Bignum)
    ensures res.Valid() && fresh(res) && fresh(res.data) && res.Value() == f0
    ensures res.sign == if f0 < 0 then -1 else 1
  {
    hide Val;
    res := FromFixnum(0);
    var scale := FromFixnum(1);
    var f := if f0 < 0 then -f0 else f0;
    ghost var whole := f;
    Multiplication.UnitPower(0);
    while f >= 1
      invariant f >= 0 && res.Valid() && fresh(res) && fresh(res.data) && res.sign == 1
      invariant scale.Valid() && fresh(scale) && fresh(scale.data) && scale.sign == 1 && Bignums.Apart(res, scale)
      invariant res.Mag() + scale.Mag() * f == whole
    {
      ghost var m := scale.Mag();
      var tmp := FxMul(null, scale, f % 16, 0);
      Multiplication.UnitPower(m * (f % 16));
      res := Add(res, res, tmp);
      scale := FxMul(null, scale, 16, 0);
      Multiplication.UnitPower(m * 16);
      NextDigit(m, f);
      f := f / 16;
    }
    res.sign := if f0 < 0 then -1 else 1;
  }

  lemma NextDigit(m: int, f: int)
    ensures m * f == m * (f % 16) + m * 16 * (f / 16)
  {
    assert f == f % 16 + 16 * (f / 16);
    MulAssoc(m, 16, f / 16);
  }

  /** A power of two whose square is within a factor of two of `a`. */
  method Estimate(a: Bignum) returns (res: Num)
    requires a.Valid() && a.Mag() > 0
    ensures ValidNum(res) && NumValue(res) > 0
    ensures NumValue(res) * NumValue(res) <= 2 * a.Mag() && a.Mag() < 2 * (NumValue(res) * NumValue(res))
  {
    hide Val;
    hide HiOf;
    hide Pow;
    hide Two;
    hide Multiplication.Exp;
    var alen := a.Hi();
    var top := a.data[alen - 1];
    TopBounds(a.data[..], alen);
    TwoBase();
    var i := 63;
    while i > 0 && top / Two(i) % 2 == 0
      invariant 0 <= i <= 63 && top < Two(i + 1)
      decreases i
    {
      TopBit(top, i);
      i := i - 1;
    }
    TopBit(top, i);
    var nbits := 64 * (alen - 1) + i + 1;
    BitLength(a.Mag(), alen, top, i);
    var two := FromFixnum(2);
    res := Multiplication.Expt(two, nbits / 2);
    PowerOfTwo(nbits / 2);
    HalfPower(nbits, a.Mag());
  }

  /** The top word is nonzero and leads the number. */
  lemma TopBounds(s: seq<Word>, n: nat)
    requires |s| >= 1 && n == HiOf(s) && Val(s) > 0
    ensures s[n - 1] > 0 && Pow(n - 1) * s[n - 1] <= Val(s) < Pow(n - 1) * (s[n - 1] as int + 1)
  {
    hide HiOf;
    hide Pow;
    LeadingWords(s, n, n - 1);
    assert s[n - 1..n] == [s[n - 1]];
    assert Val([s[n - 1]]) == s[n - 1];
    Commute(s[n - 1], Pow(n - 1));
    Commute(s[n - 1] as int + 1, Pow(n - 1));
    if n == 1 {
      SingleWord(s);
    }
  }

  /** Bit `i` of a word below 2^(i + 1). */
  lemma TopBit(top: Word, i: nat)
    requires 0 < top < Two(i + 1)
    ensures top / Two(i) % 2 == 0 ==> top < Two(i)
    ensures top / Two(i) % 2 != 0 || i == 0 ==> Two(i) <= top
    ensures i == 0 ==> top / Two(i) % 2 != 0
  {
    var d, q := Two(i), top / Two(i);
    QuotientFits(top, d, 2);
    assert q == 0 || q == 1;
    assert q == 0 ==> q * d == 0;
    assert q == 1 ==> q * d == d;
  }

  lemma BitLength(a: int, n: nat, top: Word, i: nat)
    requires n >= 1 && Pow(n - 1) * top <= a < Pow(n - 1) * (top as int + 1) && Two(i) <= top < Two(i + 1)
    ensures Two(64 * (n - 1) + i) <= a < Two(64 * (n - 1) + i + 1)
  {
    hide Two;
    TwoPow(n - 1);
    TwoAdd(64 * (n - 1), i);
    TwoAdd(64 * (n - 1), i + 1);
    MulLe(Pow(n - 1), Two(i), top);
    MulLe(Pow(n - 1), top as int + 1, Two(i + 1));
  }

  lemma {:induction false} PowerOfTwo(n: nat)
    ensures Multiplication.Exp(2, n) == Two(n)
  {
    if n > 0 {
      PowerOfTwo(n - 1);
    }
  }

  lemma HalfPower(n: nat, a: int)
    requires n >= 1 && Two(n - 1) <= a < Two(n)
    ensures var e := Two(n / 2); e * e <= 2 * a && a < 2 * (e * e)
  {
    hide Two;
    TwoAdd(n / 2, n / 2);
    TwoAdd(1, n - 1);
    assert Two(1) == 2 by { OneBit(); }
    if n % 2 == 0 {
      assert n / 2 + n / 2 == n;
    } else {
      assert n / 2 + n / 2 == n - 1;
    }
  }

  lemma OneBit()
    ensures Two(1) == 2
  {
  }

  // -------------------------------------------------------------- the root

  const MAX_ACCURATE: real := 1073741824.0

  ghost predicate IsRoot(a: int, res: int, rem: int) {
    res >= 0 && res * res <= a < (res + 1) * (res + 1) && rem == a - res * res
  }

  /**
    Root and remainder of the magnitude of `a0`.  `root` is the floating-point
    root of the nearest flonum, none when that is infinite; up to 2^30 its
    integer part is taken for the root.
  */
  method Sqrt(a0: Bignum, root: Option<real>) returns (res: Num, rem: Num)
    requires a0.Valid() && (root.Some? ==> root.value >= 0.0) && (a0.Mag() == 0 ==> root == Some(0.0))
    ensures Normal(res) && Normal(rem)
    ensures root.None? || root.value > 1073741824.0 ==> IsRoot(a0.Mag(), NumValue(res), NumValue(rem))
    ensures root.Some? && root.value <= 1073741824.0 ==>
              var whole := root.value.Floor;
              NumValue(res) == whole && NumValue(rem) == a0.Mag() - whole * whole
  {
    hide Val;
    hide Pow;
    hide Wrap;
    hide IsRoot;
    var a := a0;
    if a0.sign < 0 {
      a := Copy(a0, 0);
      a.sign := 1;
    }
    if root == None {
      res := Estimate(a);
      res, rem := Refine(a, res);
    } else {
      var estimate := WholeToBignum(root.value.Floor);
      if root.value > MAX_ACCURATE {
        res, rem := Refine(a, Big(estimate));
      } else {
        res := Normalize(estimate);
        var tmp := MulNum(res, res);
        rem := SubNum(Big(a), tmp);
        rem := NormalizeNum(rem);
      }
    }
  }

  /** The loop, from any positive estimate: also from a bignum of fixnum size. */
  method Refine(a: Bignum, seed: Num) returns (res: Num, rem: Num)
    requires a.Valid() && a.sign == 1 && a.Mag() > 0 && ValidNum(seed) && NumValue(seed) > 0
    ensures Normal(res) && Normal(rem) && IsRoot(a.Mag(), NumValue(res), NumValue(rem))
  {
    hide Val;
    hide Wrap;
    hide Low;
    hide Truncated;
    ghost var n: int := a.Mag();
    res := seed;
    while true
      invariant ValidNum(res) && NumValue(res) > 0
      invariant a.Valid() && a.Value() == n == a.Mag()
      decreases Low(NumValue(res), n), NumValue(res)
    {
      var adjust;
      rem, adjust := Remaining(Big(a), res);
      if !adjust {
        NotLow(n, NumValue(res));
        rem := NormalizeNum(rem);
        res := NormalizeNum(res);
        return;
      }
      Step(n, NumValue(res));
      res := Improve(Big(a), res);
    }
  }

  lemma NotLow(a: int, res: int)
    requires !Low(res, a)
    ensures a < (res + 1) * (res + 1)
  {
  }

  /** The remainder for the current estimate, and whether to adjust it. */
  method Remaining(a: Num, res: Num) returns (rem: Num, adjust: bool)
    requires a.Big? && ValidNum(a) && ValidNum(res) && NumValue(res) > 0
    ensures Normal(rem) && NumValue(rem) == NumValue(a) - NumValue(res) * NumValue(res)
    ensures !adjust <==> NumValue(rem) >= 0 && !Low(NumValue(res), NumValue(a))
    ensures adjust ==> NumValue(res) * NumValue(res) > NumValue(a) || Low(NumValue(res), NumValue(a))
  {
    hide Val;
    hide Wrap;
    hide Low;
    hide Truncated;
    hide Plain;
    hide Comparable;
    hide Pow;
    rem := Excess(a, res);
    adjust := IsNegative(rem);
    if !adjust {
      var tmp := HalfBelow(rem);
      Stops(NumValue(a), NumValue(res), NumValue(rem), NumValue(tmp));
      NaturalsCompare(tmp, res);
      var order := CompareNum(tmp, res);
      adjust := order >= 0;
    }
  }

  method Excess(a: Num, res: Num) returns (rem: Num)
    requires a.Big? && ValidNum(a) && ValidNum(res)
    ensures Normal(rem) && NumValue(rem) == NumValue(a) - NumValue(res) * NumValue(res)
    ensures rem.Big? ==> fresh(rem.b) && fresh(rem.b.data)
  {
    hide Val;
    hide Pow;
    hide Wrap;
    rem := MulNum(res, res);
    rem := SubNum(a, rem);
  }

  /** No difference of a natural and a positive number wraps. */
  lemma NaturalsCompare(a: Num, b: Num)
    requires Normal(a) && NumValue(a) >= 0 && ValidNum(b) && NumValue(b) > 0
    ensures Plain(a) && Plain(b) && Comparable(a, b)
  {
    hide Val;
    hide Pow;
  }

  /** (rem - 1) / 2 */
  method HalfBelow(rem: Num) returns (tmp: Num)
    requires Normal(rem) && NumValue(rem) >= 0
    ensures Normal(tmp) && Truncated(NumValue(rem) - 1, 2, NumValue(tmp), NumValue(rem) - 1 - NumValue(tmp) * 2)
  {
    hide Val;
    hide Wrap;
    hide Truncated;
    tmp := SubNum(rem, Fix(1));
    tmp := QuotientNum(tmp, Fix(2));
  }

  method Improve(a: Num, res: Num) returns (r: Num)
    requires a.Big? && ValidNum(a) && ValidNum(res) && NumValue(res) > 0 && NumValue(a) > 0
    ensures ValidNum(r) && NumValue(r) == (NumValue(res) + NumValue(a) / NumValue(res)) / 2
  {
    hide Val;
    hide Wrap;
    hide Truncated;
    var tmp := QuotientNum(a, res);
    PositiveQuotient(NumValue(a), NumValue(res), NumValue(tmp), NumValue(a) - NumValue(tmp) * NumValue(res));
    r := AddNum(res, tmp);
    ghost var sum := NumValue(r);
    r := QuotientNum(r, Fix(2));
    PositiveQuotient(sum, 2, NumValue(r), sum - NumValue(r) * 2);
  }

  lemma PositiveQuotient(a: int, b: int, q: int, r: int)
    requires a > 0 && b > 0 && Truncated(a, b, q, r)
    ensures q == a / b && q >= 0
  {
    DivModUnique(a, b, q, r);
    QuotientBelow(a, b);
  }
}
