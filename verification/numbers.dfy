/**
  Exact integers as the interpreter sees them: fixnums where they fit and
  bignums elsewhere, with the operations that choose between the two.

  Fixnum arithmetic that the program does without a check wraps around, and a
  fixnum divided by a bignum is taken to be the smaller of the two; the
  contracts say where that is right.
*/
module Numbers {
  import Scheme
  import opened Digits
  import opened Bignums
  import opened Addition
  import Multiplication
  import opened LongDivision

  /** The only normal fixnum and bignum of the same magnitude. */
  ghost predicate Edge(a: Num, b: Num)
    reads if b.Big? then {b.b, b.b.data} else {}
  {
    a == Fix(MIN_FIXNUM) && b.Big? && NumValue(b) == -MIN_FIXNUM
  }

  /** Quotient 0 and the dividend as remainder are right for a fixnum and a bignum except at that edge. */
  lemma FixByBig(a: Num, b: Num)
    requires a.Fix? && b.Big? && Normal(b)
    ensures Truncated(NumValue(a), NumValue(b), 0, NumValue(a)) <==> !Edge(a, b)
  {
    hide Val;
  }

  /** The sign test, for anything but a bignum zero. */
  method IsNegative(x: Num) returns (negative: bool)
    requires ValidNum(x) && (x.Big? ==> NumValue(x) != 0)
    ensures negative <==> NumValue(x) < 0
  {
    match x
    case Fix(n) => negative := n < 0;
    case Big(b) => negative := b.sign < 0;
  }

  method NormalizeNum(x: Num) returns (r: Num)
    requires ValidNum(x)
    ensures Normal(r) && NumValue(r) == NumValue(x) && (r == x || r.Fix?)
  {
    match x
    case Fix(_) => r := x;
    case Big(b) => r := Normalize(b);
  }

  method MulNum(a: Num, b: Num) returns (r: Num)
    requires ValidNum(a) && ValidNum(b)
    ensures Normal(r) && NumValue(r) == NumValue(a) * NumValue(b)
    ensures r.Big? ==> fresh(r.b) && fresh(r.b.data)
  {
    hide Val;
    hide Wrap;
    hide Normal;
    match (a, b) {
      case (Fix(m), Fix(n)) =>
        var product: int := m as int * n as int;
        if MIN_FIXNUM <= product <= MAX_FIXNUM {
          FixValue(product);
          return Fix(product);
        }
        var t := FromFixnum(m);
        r := MulBigFix(t, n);
      case (Fix(m), Big(y)) =>
        r := MulBigFix(y, m);
        Commute(m, y.Value());
      case (Big(x), Fix(n)) => r := MulBigFix(x, n);
      case (Big(x), Big(y)) =>
        var t := Multiplication.Mul(x, y);
        r := Normalize(t);
    }
  }

  lemma FixValue(n: Fixnum)
    ensures NumValue(Fix(n)) == n && Normal(Fix(n)) && ValidNum(Fix(n))
  {
  }

  method MulBigFix(x: Bignum, n: Fixnum) returns (r: Num)
    requires x.Valid()
    ensures Normal(r) && NumValue(r) == x.Value() * n
    ensures r.Big? ==> fresh(r.b) && fresh(r.b.data)
  {
    hide Val;
    hide Pow;
    var m: int := n;
    var abs: Word := if m < 0 then -m else m;
    var sign := if m < 0 then -1 else 1;
    var t := FxMul(null, x, abs, 0);
    Multiplication.UnitPower(x.Mag() * abs);
    t.sign := sign * x.sign;
    Multiplication.SignedProduct(x.sign, x.Mag(), sign, abs);
    Commute(sign, x.sign);
    r := Normalize(t);
  }

  function Sign(x: int): int { if x < 0 then -1 else 1 }

  /** Truncated division is the division of magnitudes with the signs put back. */
  lemma TruncatedSigns(a: int, b: int)
    requires b != 0
    ensures Truncated(a, b, if Sign(a) * Sign(b) < 0 then -(Abs(a) / Abs(b)) else Abs(a) / Abs(b),
                      if a < 0 then -(Abs(a) % Abs(b)) else Abs(a) % Abs(b))
  {
    AdjustSigns(Sign(a), Abs(a), Sign(b), Abs(b), Abs(a) / Abs(b), Abs(a) % Abs(b));
  }

  lemma TruncatedFixnums(a: int, b: int)
    requires b != 0
    ensures Truncated(a, b, Scheme.TruncQuot(a, b), Scheme.TruncRem(a, b))
  {
    var q, r := if Sign(a) * Sign(b) < 0 then -(Abs(a) / Abs(b)) else Abs(a) / Abs(b),
                if a < 0 then -(Abs(a) % Abs(b)) else Abs(a) % Abs(b);
    TruncatedSigns(a, b);
    assert q == Scheme.TruncQuot(a, b);
    Commute(q, b);
  }

  /** A quotient is no larger than its dividend. */
  lemma QuotientRange(a: int, b: int, q: int, r: int)
    requires Truncated(a, b, q, r) && b != 0
    ensures Abs(q) <= Abs(a) && (Abs(q) == Abs(a) > 0 ==> Abs(b) == 1)
  {
    TruncatedSigns(a, b);
    TruncatedUnique(a, b, q, r, if Sign(a) * Sign(b) < 0 then -(Abs(a) / Abs(b)) else Abs(a) / Abs(b),
                    if a < 0 then -(Abs(a) % Abs(b)) else Abs(a) % Abs(b));
    QuotientBelow(Abs(a), Abs(b));
    if Abs(a) > 0 && Abs(b) >= 2 {
      MulLe(Abs(a), 2, Abs(b));
      QuotientFits(Abs(a), Abs(b), Abs(a));
    }
  }

  /** Truncating quotient, except that a fixnum over a bignum is always 0. */
  method QuotientNum(a: Num, b: Num) returns (r: Num)
    requires ValidNum(a) && ValidNum(b) && NumValue(b) != 0
    ensures a.Fix? && b.Big? ==> r == Fix(0)
    ensures !(a.Fix? && b.Big?) ==> Truncated(NumValue(a), NumValue(b), NumValue(r), NumValue(a) - NumValue(r) * NumValue(b))
    ensures if b == Fix(1) then r == a else Normal(r)
    ensures r.Big? ==> r == a || (fresh(r.b) && fresh(r.b.data))
  {
    hide Val;
    hide Truncated;
    hide Normal;
    hide Wrap;
    hide Scheme.TruncQuot;
    hide Scheme.TruncRem;
    if b == Fix(1) {
      DivideByOne(NumValue(a));
      return a;
    }
    match (a, b) {
      case (Fix(m), Fix(n)) =>
        var q := Scheme.TruncQuot(m, n);
        FixnumQuotient(m, n, q);
        if m < 0 && n < 0 && Wrap(q) < 0 {
          var t := FromFixnum(m);
          var u := FromFixnum(n);
          r := QuotientBig(t, u);
        } else {
          r := Fix(Wrap(q));
          FixValue(r.n);
        }
      case (Fix(m), Big(y)) => r := Fix(0); FixValue(0);
      case (Big(x), Fix(n)) =>
        var t := FromFixnum(n);
        r := QuotientBig(x, t);
      case (Big(x), Big(y)) => r := QuotientBig(x, y);
    }
  }

  lemma DivideByOne(a: int)
    ensures Truncated(a, 1, a, a - a * 1)
  {
  }

  /** Only the least fixnum over -1 wraps, and that is seen by its sign. */
  lemma FixnumQuotient(m: Fixnum, n: Fixnum, q: int)
    requires n != 0 && q == Scheme.TruncQuot(m, n)
    ensures Truncated(m, n, q, m - q * n)
    ensures MIN_FIXNUM <= q <= MAX_FIXNUM + 1
    ensures q == MAX_FIXNUM + 1 ==> m < 0 && n < 0 && Wrap(q) < 0
  {
    hide Scheme.TruncQuot;
    TruncatedFixnums(m, n);
    Commute(n, q);
    assert Scheme.TruncRem(m, n) == m as int - q * n;
    QuotientRange(m, n, q, m - q * n);
    if q == MAX_FIXNUM + 1 {
      assert n == 1 || n == -1;
      assert n == 1 ==> q == m;
    }
  }

  method QuotientBig(x: Bignum, y: Bignum) returns (r: Num)
    requires x.Valid() && y.Valid() && y.Value() != 0
    ensures Normal(r) && Truncated(x.Value(), y.Value(), NumValue(r), x.Value() - NumValue(r) * y.Value())
    ensures r.Big? ==> fresh(r.b) && fresh(r.b.data)
  {
    hide Val;
    var res := QuotRem(x, y);
    assert res.Ok? by { assert y.Mag() != 0; }
    r := NormalizeNum(res.value.0);
  }

  /** Remainder with the dividend's sign, except that a fixnum modulo a bignum is itself. */
  method RemainderNum(a: Num, b: Num) returns (r: Num)
    requires ValidNum(a) && ValidNum(b) && NumValue(b) != 0
    ensures a.Fix? && b.Big? ==> r == a
    ensures !(a.Fix? && b.Big?) ==> exists q :: Truncated(NumValue(a), NumValue(b), q, NumValue(r))
    ensures Normal(r) && (b.Fix? ==> r.Fix?)
    ensures r.Big? ==> fresh(r.b) && fresh(r.b.data)
  {
    hide Val;
    hide Truncated;
    hide Normal;
    hide Wrap;
    hide Scheme.TruncQuot;
    hide Scheme.TruncRem;
    if b == Fix(1) {
      FixValue(0);
      DivideByOne(NumValue(a));
      assert Truncated(NumValue(a), NumValue(b), NumValue(a), 0);
      return Fix(0);
    }
    match (a, b) {
      case (Fix(m), Fix(n)) =>
        var v := Scheme.TruncRem(m, n);
        TruncatedFixnums(m, n);
        RemainderRange(m, n, Scheme.TruncQuot(m, n), v);
        r := Fix(Wrap(v));
        FixValue(r.n);
        assert Truncated(NumValue(a), NumValue(b), Scheme.TruncQuot(m, n), NumValue(r));
      case (Fix(m), Big(y)) => r := a; FixValue(m);
      case (Big(x), Fix(n)) =>
        var res := FxRem(x, n);
        r := Fix(res.value);
        FixValue(res.value);
        WordRemainder(x.sign, x.Mag(), n, res.value);
        assert exists q :: Truncated(NumValue(a), NumValue(b), q, NumValue(r));
      case (Big(x), Big(y)) =>
        var res := QuotRem(x, y);
        assert res.Ok? by { assert y.Mag() != 0; }
        ghost var q := NumValue(res.value.0);
        r := NormalizeNum(res.value.1);
        assert Truncated(NumValue(a), NumValue(b), q, NumValue(r));
    }
  }

  lemma RemainderRange(a: int, b: int, q: int, r: int)
    requires Truncated(a, b, q, r) && b != 0
    ensures Abs(r) < Abs(b)
  {
  }

  lemma WordRemainder(sign: int, mag: nat, b: int, r: int)
    requires (sign == 1 || sign == -1) && b != 0 && r == sign * (mag % Abs(b))
    ensures exists q :: Truncated(sign * mag, b, q, r)
  {
    var q := mag / Abs(b);
    AdjustSigns(sign, mag, if b < 0 then -1 else 1, Abs(b), q, mag % Abs(b));
  }

  /** A fixnum, or a bignum that is normal or not negative. */
  ghost predicate Plain(x: Num)
    reads if x.Big? then {x.b, x.b.data} else {}
  {
    ValidNum(x) && (x.Big? && x.b.sign < 0 ==> Normal(x))
  }

  /** When comparison comes out right: differences of fixnum-sized magnitudes must not wrap. */
  ghost predicate Comparable(a: Num, b: Num)
    reads if a.Big? then {a.b, a.b.data} else {}
    reads if b.Big? then {b.b, b.b.data} else {}
  {
    match (a, b)
    case (Fix(m), Fix(n)) => MIN_FIXNUM <= m as int - n <= MAX_FIXNUM
    case (Fix(m), Big(y)) => y.Mag() > MAX_FIXNUM || m as int - y.Mag() >= MIN_FIXNUM
    case (Big(x), Fix(n)) => x.Mag() > MAX_FIXNUM || n as int - x.Mag() > MIN_FIXNUM
    case (Big(_), Big(_)) => true
  }

  ghost predicate Ordered(r: int, x: int, y: int) {
    (r < 0 <==> x < y) && (r > 0 <==> x > y)
  }

  /** Comparison; a difference of fixnum size may wrap. */
  method CompareNum(a: Num, b: Num) returns (r: int)
    requires ValidNum(a) && ValidNum(b)
    ensures Plain(a) && Plain(b) ==> (Ordered(r, NumValue(a), NumValue(b)) <==> Comparable(a, b))
    ensures a.Fix? && b.Fix? ==> r == Wrap(a.n as int - b.n)
  {
    hide Val;
    hide HiOf;
    hide Wrap;
    match (a, b) {
      case (Fix(m), Fix(n)) =>
        FixnumDifference(m, n);
        return Wrap(m as int - n);
      case (Fix(m), Big(y)) => r := CompareFixBig(m, y);
      case (Big(x), Fix(n)) =>
        r := CompareFixBig(n, x);
        Turned(r, n, x.Value());
        r := Wrap(-r);
      case (Big(x), Big(y)) => r := Compare(x, y);
    }
  }

  /** Turning a result around loses its sign only at the least fixnum. */
  lemma Turned(r: Fixnum, x: int, y: int)
    ensures r != MIN_FIXNUM ==> (Ordered(Wrap(-(r as int)), y, x) <==> Ordered(r, x, y))
    ensures r == MIN_FIXNUM ==> Wrap(-(r as int)) == MIN_FIXNUM
  {
  }

  /** The sign of a bignum of that size decides; otherwise the lowest word is all there is. */
  method CompareFixBig(m: Fixnum, y: Bignum) returns (r: Fixnum)
    requires y.Valid()
    ensures r == if y.Mag() > MAX_FIXNUM then -y.sign else Wrap(m as int - y.Mag())
    ensures Plain(Big(y)) ==> (Ordered(r, m, y.Value()) <==> Comparable(Fix(m), Big(y)))
  {
    hide Val;
    hide HiOf;
    hide Wrap;
    var hi := y.Hi();
    OneWordOrMore(y.data[..], hi);
    var low: int := y.data[0];
    if y.Mag() <= MAX_FIXNUM {
      FarDifference(m as int - y.Mag());
    }
    r := if hi > 1 || low > MAX_FIXNUM then (if y.sign < 0 then 1 else -1) else Wrap(m as int - low);
  }

  lemma OneWordOrMore(s: seq<Word>, hi: nat)
    requires |s| >= 1 && hi == HiOf(s)
    ensures if hi > 1 then Val(s) > MAX_FIXNUM else Val(s) == s[0]
  {
    hide Val;
    hide HiOf;
    if hi > 1 {
      ValHi(s, hi);
      PowMono(1, hi - 1);
      assert Pow(1) == BASE;
    } else {
      SingleWord(s);
    }
  }
}
