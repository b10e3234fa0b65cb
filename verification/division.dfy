/**
  Long division of big integers by guess and correction.

  Each round guesses a two-word multiple `x` of the divisor from the leading
  words, subtracts it, and lets the remainder change sign when the guess was
  too large; the next round then adds.  A guess never overshoots by as much as
  the remainder itself, so the remainder shrinks in every round.
*/
module LongDivision {
  import opened Digits
  import opened Bignums
  import opened Addition
  import Multiplication

  // ------------------------------------------------------------- the guesses

  /** `t` consists of the leading digits of `v`, in units of `scale`. */
  ghost predicate Leading(v: int, t: int, scale: int) {
    scale > 0 && t * scale <= v < (t + 1) * scale
  }

  /** Words k.. of a number are its leading digits in units of BASE^k. */
  lemma LeadingWords(s: seq<Word>, n: nat, k: nat)
    requires |s| >= 1 && n == HiOf(s) && k <= n
    ensures Leading(Val(s), Val(s[k..n]), Pow(k))
  {
    hide Val;
    hide HiOf;
    ValPad(s, n);
    ValSplit(s[..n], k);
    assert s[..n][..k] == s[..k] && s[..n][k..] == s[k..n];
    ValBound(s[..k]);
    Distribute(Val(s[k..n]), 1, Pow(k));
    Commute(Val(s[k..n]), Pow(k));
  }

  /** Half of the next word refines the leading digits. */
  lemma LeadingHalf(v: int, t: int, w: Word, scale: int)
    requires Leading(v, t * BASE + w, scale)
    ensures Leading(v, t * HALF_BASE + w / HALF_BASE, HALF_BASE * scale)
  {
    var u := t * HALF_BASE + w / HALF_BASE;
    var x := t * BASE + w;
    assert u * HALF_BASE <= x && x + 1 <= (u + 1) * HALF_BASE;
    MulLe(scale, u * HALF_BASE, x);
    MulLe(scale, x + 1, (u + 1) * HALF_BASE);
    MulAssoc(u, HALF_BASE, scale);
    MulAssoc(u + 1, HALF_BASE, scale);
    Commute(scale, u * HALF_BASE);
    Commute(scale, x);
    Commute(scale, x + 1);
    Commute(scale, (u + 1) * HALF_BASE);
  }

  /** Dividing leading digits yields a guess that overshoots by less than the dividend. */
  lemma GuessBound(a: int, b: int, dn: int, dd: int, p: int, q: int, r: int)
    requires Leading(a, dn, p) && Leading(b, dd, q) && p == q * r && r > 0
    requires dd >= 1 && dn / dd >= 1 && b > 0
    ensures 0 < dn / dd * r * b < 2 * a
  {
    var d := dn / dd;
    var x := d * r;
    assert x >= 1 by { MulLe(d, 1, r); }
    assert 0 < x * b by { MulLt(x, 0, b); }
    assert x * b < x * ((dd + 1) * q) by { MulLt(x, b, (dd + 1) * q); }
    GuessUnits(d, r, dd + 1, q);
    assert d * (dd + 1) * p <= 2 * dn * p by {
      GuessDigits(dn, dd);
      MulLe(p, d * (dd + 1), 2 * dn);
    }
    MulAssoc(2, dn, p);
  }

  lemma GuessUnits(d: int, r: int, e: int, q: int)
    ensures d * r * (e * q) == d * e * (q * r)
  {
    MulAssoc(d, r, e * q);
    Commute(r, e * q);
    MulAssoc(e, q, r);
    MulAssoc(d, e, q * r);
  }

  lemma GuessDigits(dn: int, dd: int)
    requires dd >= 1 && dn / dd >= 1
    ensures dn / dd * (dd + 1) <= 2 * dn
  {
    var d := dn / dd;
    assert d * dd <= dn;
    assert d <= d * dd by { MulLe(d, 1, dd); }
    assert d * (dd + 1) == d * dd + d;
  }

  /** A guess as the value d * BASE^(off - 1). */
  ghost predicate GoodGuess(d: DoubleWord, off: nat, a: int, b: int) {
    off >= 1 && d >= 1 && 0 < d * Pow(off - 1) * b < 2 * a
  }

  /** Guess from the leading words of both numbers, or of the dividend and the divisor's top word. */
  method Guess(a: Bignum, b: Bignum, alen: nat, blen: nat) returns (d: DoubleWord, off: nat)
    requires a.Valid() && b.Valid() && alen == HiOf(a.data[..]) && blen == HiOf(b.data[..])
    requires 2 <= blen && b.Mag() <= a.Mag()
    ensures GoodGuess(d, off, a.Mag(), b.Mag()) && off <= alen - blen + 1 && blen <= alen
  {
    hide Val;
    hide HiOf;
    hide Pow;
    hide GoodGuess;
    hide Leading;
    ghost var s, t := a.data[..], b.data[..];
    if alen < blen {
      HiOrders(s, alen, t, blen);
    }
    NonzeroWord(t, blen - 1);
    off := alen - blen + 1;
    var narrow := a.data[alen - 1] < HALF_BASE && b.data[blen - 1] < HALF_BASE;
    TwoWords(s, alen);
    TwoWords(t, blen);
    var dn: DoubleWord := a.data[alen - 1] * BASE + a.data[alen - 2];
    var dd: DoubleWord := b.data[blen - 1] * BASE + b.data[blen - 2];
    if alen > 2 && blen > 2 && narrow {
      ThreeWords(s, alen);
      ThreeWords(t, blen);
      dn := dn * HALF_BASE + a.data[alen - 3] / HALF_BASE;
      dd := dd * HALF_BASE + b.data[blen - 3] / HALF_BASE;
      FirstGuess(a.Mag(), b.Mag(), dn, dd, alen, blen, 3, HALF_BASE);
    } else {
      FirstGuess(a.Mag(), b.Mag(), dn, dd, alen, blen, 2, 1);
    }
    QuotientBelow(dn, dd);
    d := dn / dd;
    if d == 0 {
      dn := a.data[alen - 1] * BASE + a.data[alen - 2];
      dd := b.data[blen - 1];
      OneWord(t, blen);
      if narrow {
        ThreeWords(s, alen);
        dn := dn * HALF_BASE + a.data[alen - 3] / HALF_BASE;
        dd := dd * HALF_BASE + b.data[blen - 2] / HALF_BASE;
        SecondGuess(a.Mag(), b.Mag(), dn, dd, alen, blen, HALF_BASE);
      } else {
        SecondGuess(a.Mag(), b.Mag(), dn, dd, alen, blen, 1);
      }
      QuotientBelow(dn, dd);
      d := dn / dd;
      off := off - 1;
    }
  }

  lemma OneWord(s: seq<Word>, n: nat)
    requires |s| >= 1 && n == HiOf(s) && n >= 2
    ensures s[n - 1] >= 1 && Leading(Val(s), s[n - 1], Pow(n - 1))
    ensures s[n - 1] < HALF_BASE ==>
              s[n - 1] * HALF_BASE + s[n - 2] / HALF_BASE < BASE
              && Leading(Val(s), s[n - 1] * HALF_BASE + s[n - 2] / HALF_BASE, HALF_BASE * Pow(n - 2))
  {
    hide HiOf;
    hide Pow;
    LeadingWords(s, n, n - 1);
    assert s[n - 1..n] == [s[n - 1]];
    assert Val([s[n - 1]]) == s[n - 1];
    TwoWords(s, n);
    LeadingHalf(Val(s), s[n - 1], s[n - 2], Pow(n - 2));
  }

  lemma ValTwo(u: seq<Word>)
    requires |u| == 2
    ensures Val(u) == u[1] * BASE + u[0]
  {
    assert u == [u[0]] + [u[1]];
    assert Val(u[1..]) == u[1];
  }

  lemma TwoWords(s: seq<Word>, n: nat)
    requires |s| >= 1 && n == HiOf(s) && n >= 2
    ensures s[n - 1] >= 1 && Leading(Val(s), s[n - 1] * BASE + s[n - 2], Pow(n - 2))
  {
    hide HiOf;
    hide Pow;
    hide Val;
    hide Leading;
    LeadingWords(s, n, n - 2);
    ValTwo(s[n - 2..n]);
  }

  lemma ValThree(u: seq<Word>)
    requires |u| == 3
    ensures Val(u) == (u[2] * BASE + u[1]) * BASE + u[0]
  {
    ValTwo(u[1..]);
  }

  lemma ThreeWords(s: seq<Word>, n: nat)
    requires |s| >= 1 && n == HiOf(s) && n >= 3
    ensures Leading(Val(s), (s[n - 1] * BASE + s[n - 2]) * HALF_BASE + s[n - 3] / HALF_BASE, HALF_BASE * Pow(n - 3))
  {
    hide HiOf;
    hide Pow;
    hide Val;
    hide Leading;
    LeadingWords(s, n, n - 3);
    ValThree(s[n - 3..n]);
    LeadingHalf(Val(s), s[n - 1] * BASE + s[n - 2], s[n - 3], Pow(n - 3));
  }

  /** The same number of leading words on both sides; no guess only when the dividend is longer. */
  lemma FirstGuess(a: int, b: int, dn: int, dd: int, alen: nat, blen: nat, k: nat, half: nat)
    requires k <= blen <= alen && half > 0 && 0 < b <= a && 1 <= dd && 0 <= dn < BASE * BASE
    requires Leading(a, dn, half * Pow(alen - k)) && Leading(b, dd, half * Pow(blen - k))
    ensures dn / dd > 0 ==> GoodGuess(dn / dd, alen - blen + 1, a, b)
    ensures dn / dd == 0 ==> alen > blen
  {
    hide Pow;
    if dn / dd > 0 {
      PowAdd(blen - k, alen - blen);
      MulAssoc(half, Pow(blen - k), Pow(alen - blen));
      QuotientBelow(dn, dd);
      GuessBound(a, b, dn, dd, half * Pow(alen - k), half * Pow(blen - k), Pow(alen - blen));
    } else if alen == blen {
      var p := half * Pow(alen - k);
      assert dn + 1 <= dd;
      MulLe(p, dn + 1, dd);
      Commute(p, dn + 1);
      Commute(p, dd);
    }
  }

  lemma QuotientBelow(dn: int, dd: int)
    requires 0 <= dn && 1 <= dd
    ensures 0 <= dn / dd <= dn && (dn / dd > 0 <==> dd <= dn)
  {
    MulLe(dn + 1, 1, dd);
    QuotientFits(dn, dd, dn + 1);
    if dn < dd {
      QuotientFits(dn, dd, 1);
    }
  }

  /** One word fewer of the divisor: there is always a guess, one place lower. */
  lemma SecondGuess(a: int, b: int, dn: int, dd: int, alen: nat, blen: nat, half: nat)
    requires 2 <= blen < alen && (half == 1 || half == HALF_BASE) && 0 < b <= a
    requires 1 <= dd < BASE <= dn < BASE * BASE
    requires if half == 1
             then Leading(a, dn, Pow(alen - 2)) && Leading(b, dd, Pow(blen - 1))
             else Leading(a, dn, half * Pow(alen - 3)) && Leading(b, dd, half * Pow(blen - 2))
    ensures dn / dd > 0 && GoodGuess(dn / dd, alen - blen, a, b)
  {
    hide Pow;
    QuotientBelow(dn, dd);
    var r := Pow(alen - blen - 1);
    if half == 1 {
      PowAdd(blen - 1, alen - blen - 1);
      GuessBound(a, b, dn, dd, Pow(alen - 2), Pow(blen - 1), r);
    } else {
      PowAdd(blen - 2, alen - blen - 1);
      MulAssoc(half, Pow(blen - 2), r);
      GuessBound(a, b, dn, dd, half * Pow(alen - 3), half * Pow(blen - 2), r);
    }
  }

  // ---------------------------------------------------------------- division

  /** Division that rounds towards zero: the remainder has the dividend's sign. */
  ghost predicate Truncated(a: int, b: int, q: int, r: int) {
    && a == q * b + r
    && Abs(r) < Abs(b)
    && (r == 0 || (r > 0 <==> a > 0))
  }

  function Abs(x: int): nat {
    if x < 0 then -x else x
  }

  /** There is only one such quotient and remainder. */
  lemma TruncatedUnique(a: int, b: int, q: int, r: int, q1: int, r1: int)
    requires Truncated(a, b, q, r) && Truncated(a, b, q1, r1)
    ensures q == q1 && r == r1
  {
    assert (q - q1) * b == r1 - r;
    if q != q1 {
      AbsFactor(q - q1, b);
    }
  }

  lemma AbsFactor(x: int, b: int)
    requires x != 0
    ensures Abs(x * b) >= Abs(b)
  {
    if b > 0 {
      FarFromZero(x, b);
    } else if b < 0 {
      FarFromZero(x, -b);
      assert x * -b == -(x * b);
    }
  }

  /** Clear the previous guess in `x` and store `d` at the words `off - 1` and `off`. */
  method StoreGuess(x: Bignum, before: nat, off: nat, d: DoubleWord)
    requires x.Valid() && 1 <= off < x.data.Length && before < x.data.Length
    requires OnlyAt(x.data[..], before)
    modifies x.data
    ensures OnlyAt(x.data[..], off) && x.Mag() == d * Pow(off - 1)
  {
    x.data[before] := 0;
    if before > 0 {
      x.data[before - 1] := 0;
    }
    x.data[off] := High(d);
    x.data[off - 1] := Low(d);
    LowHigh(d);
    GuessValue(x.data[..], off, d);
  }

  ghost predicate OnlyAt(s: seq<Word>, off: nat) {
    forall i :: 0 <= i < |s| && i != off && i != off - 1 ==> s[i] == 0
  }

  lemma GuessValue(s: seq<Word>, off: nat, d: int)
    requires 1 <= off < |s| && OnlyAt(s, off) && d == s[off - 1] + BASE * s[off]
    ensures Val(s) == d * Pow(off - 1)
  {
    hide Pow;
    var t := s[off - 1..];
    ValSplit(s, off - 1);
    ValZeros(s[..off - 1]);
    ValZeros(t[2..]);
    assert t[1..][1..] == t[2..];
    assert Val(t) == t[0] + BASE * Val(t[1..]) && Val(t[1..]) == t[1] + BASE * Val(t[2..]);
    Commute(Pow(off - 1), d);
  }

  /** Quotient and remainder; only a zero divisor fails. */
  method QuotRem(a: Bignum, b: Bignum) returns (res: Result<(Num, Num)>)
    requires a.Valid() && b.Valid()
    ensures res.DivideByZero? <==> b.Mag() == 0
    ensures res.Ok? ==> ValidNum(res.value.0) && ValidNum(res.value.1)
                        && Truncated(a.Value(), b.Value(), NumValue(res.value.0), NumValue(res.value.1))
    ensures res.Ok? ==> FreshNum(res.value.0) && FreshNum(res.value.1)
  {
    hide Val;
    hide HiOf;
    hide Pow;
    hide Truncated;
    hide NumValue;
    var blen := b.Hi();
    FixNum();
    if blen == 1 {
      SingleWord(b.data[..]);
      if b.data[0] == 0 {
        return DivideByZero;
      }
    } else {
      NonzeroWord(b.data[..], blen - 1);
    }
    var q, r;
    if blen == 1 {
      q, r := QuotRemWord(a, b.data[0]);
    } else {
      q, r := QuotRemWords(a, b, blen);
    }
    ghost var x, y := NumValue(q), NumValue(r);
    AdjustSigns(a.sign, a.Mag(), b.sign, b.Mag(), x, y);
    if a.sign * b.sign < 0 {
      QuotientSign(a.Mag(), x, b.Mag(), y);
      q := NegateExact(q);
    }
    if a.sign < 0 {
      r := NegateExact(r);
    }
    assert NumValue(q) == (if a.sign * b.sign < 0 then -x else x) && NumValue(r) == if a.sign < 0 then -y else y;
    return Ok((q, r));
  }

  lemma FixNum()
    ensures forall n: Fixnum :: NumValue(Fix(n)) == n
  {
  }

  /** From the division of magnitudes to the division of signed numbers. */
  lemma AdjustSigns(s: int, x: nat, t: int, y: nat, q: int, r: int)
    requires (s == 1 || s == -1) && (t == 1 || t == -1)
    requires x == q * y + r && 0 <= r < y
    ensures Truncated(s * x, t * y, if s * t < 0 then -q else q, if s < 0 then -r else r)
  {
    if r > 0 {
      if q < 0 {
        MulLe(y, q, -1);
      } else {
        MulLe(y, 0, q);
      }
      assert x > 0;
    }
  }

  /** The fast path for a single-word divisor. */
  method QuotRemWord(a: Bignum, b: Word) returns (q: Num, r: Num)
    requires a.Valid() && b > 0
    ensures ValidNum(q) && ValidNum(r) && FreshNum(q) && FreshNum(r) && (q.Big? ==> q != r)
    ensures a.Mag() == NumValue(q) * b + NumValue(r) && 0 <= NumValue(r) < b && NumValue(q) >= 0
  {
    hide Val;
    hide Bignum.Value;
    var a1 := Copy(a, 0);
    a1.sign := 1;
    assert a1.data[0..] == a1.data[..] == a.data[..];
    var w := FxDiv(a1, b, 0);
    assert a1.data[0..] == a1.data[..];
    ghost var quotient: int := a1.Mag();
    Divided(a.Mag(), b, quotient, w);
    var b1 := new Bignum(1);
    b1.data[0] := w;
    assert b1.data[..] == [w];
    ValOne(w);
    Positive(b1);
    r := Normalize(b1);
    q := Big(a1);
    Positive(a1);
    assert NumValue(q) == quotient && NumValue(r) == w;
  }

  lemma Divided(x: int, d: int, q: int, r: int)
    requires d > 0 && q == x / d && r == x % d
    ensures x == q * d + r && 0 <= r < d
  {
  }

  lemma Positive(a: Bignum)
    requires a.Valid() && a.sign == 1
    ensures a.Value() == a.Mag() == NumValue(Big(a)) && NumValue(Fix(0)) == 0
  {
  }

  /** The general case: |a| = q |b| + a1 throughout, with |a1| falling to below |b|. */
  method QuotRemWords(a: Bignum, b: Bignum, blen: nat) returns (q: Num, r: Num)
    requires a.Valid() && b.Valid() && blen == HiOf(b.data[..]) && blen >= 2
    ensures ValidNum(q) && ValidNum(r) && FreshNum(q) && FreshNum(r) && (q.Big? ==> q != r)
    ensures a.Mag() == NumValue(q) * b.Mag() + NumValue(r) && 0 <= NumValue(r) < b.Mag() && NumValue(q) >= 0
  {
    hide Val;
    hide HiOf;
    hide Pow;
    hide NumValue;
    hide Bignum.Value;
    hide OnlyAt;
    hide Balanced;
    var a1 := Copy(a, 0);
    a1.sign := 1;
    var b1 := Copy(b, 0);
    b1.sign := 1;
    ghost var m, n := a.Mag(), b.Mag();
    NonzeroWord(b.data[..], blen - 1);
    q := Fix(0);
    Positive(a1);
    NothingTaken(m, n);
    var x := new Bignum(a.data.Length);
    NothingStored(x.data[..]);
    var sign: int, off: nat := 1, 0;
    var cmp := CompareAbs(a1, b1);
    while cmp >= 0
      invariant a1.Valid() && fresh(a1) && fresh(a1.data) && a1.sign == sign && a1.Mag() <= m
      invariant b1.Valid() && b1.sign == 1 && b1.data[..] == b.data[..]
      invariant x.Valid() && fresh(x.data) && x.data !in {a1.data, b1.data} && off < x.data.Length == a.data.Length
      invariant x.sign == 1 && OnlyAt(x.data[..], off)
      invariant ValidNum(q) && (q.Big? ==> fresh(q.b) && fresh(q.b.data) && q.b.data != x.data)
      invariant Balanced(m, NumValue(q), b1.Mag(), a1.Value()) && q != Big(a1)
      invariant cmp >= 0 <==> n <= a1.Mag()
      decreases a1.Mag()
    {
      a1, q, sign, off := Round(a, a1, b1, x, q, sign, off, blen, m);
      cmp := CompareAbs(a1, b1);
    }
    q, r := Finish(a1, b1, q, sign, m);
  }

  /** What is left of `m` after `q` times `n`. */
  ghost predicate Balanced(m: int, q: int, n: int, rest: int) { m == q * n + rest }

  lemma NothingTaken(m: int, n: int)
    ensures Balanced(m, 0, n, m)
  {
  }

  lemma NothingStored(s: seq<Word>)
    requires Zeros(s)
    ensures OnlyAt(s, 0)
  {
  }

  /** One guess: subtract or add its multiple of the divisor, whichever brings the remainder nearer to zero. */
  method Round(a: Bignum, a1: Bignum, b1: Bignum, x: Bignum, q: Num, sign: int, off: nat, blen: nat, ghost m: nat)
      returns (a2: Bignum, q2: Num, sign2: int, off2: nat)
    requires a.Valid() && a1.Valid() && a1.sign == sign && a1.Mag() <= m == a.Mag()
    requires b1.Valid() && b1.sign == 1 && blen == HiOf(b1.data[..]) && blen >= 2 && b1.Mag() <= a1.Mag()
    requires x.Valid() && x.sign == 1 && off < x.data.Length == a.data.Length && OnlyAt(x.data[..], off)
    requires x.data !in {a.data, a1.data, b1.data} && (q.Big? ==> q.b.data != x.data)
    requires ValidNum(q) && Balanced(m, NumValue(q), b1.Mag(), a1.Value())
    modifies x.data
    ensures a2.Valid() && fresh(a2) && fresh(a2.data) && a2.sign == sign2 && a2.Mag() < a1.Mag()
    ensures OnlyAt(x.data[..], off2) && off2 < x.data.Length
    ensures ValidNum(q2) && (q2.Big? ==> fresh(q2.b) && fresh(q2.b.data) && q2.b != a2)
    ensures Balanced(m, NumValue(q2), b1.Mag(), a2.Value())
  {
    hide Val;
    hide HiOf;
    hide Pow;
    hide OnlyAt;
    var alen := a1.Hi();
    ShorterHi(a1.data[..], alen, a.data[..]);
    var d, g := Guess(a1, b1, alen, blen);
    off2 := g;
    StoreGuess(x, off, off2, d);
    var y := Multiplication.Mul(b1, x);
    Commute(b1.Mag(), x.Mag());
    ghost var step := x.Mag() * b1.Mag();
    assert y.Value() == step && NumValue(Big(x)) == x.Mag();
    if sign < 0 {
      a2 := Add(null, a1, y);
      assert a2.Value() == a1.Value() + step;
      q2 := SubNum(q, Big(x));
    } else {
      a2 := Sub(a1, y);
      assert a2.Value() == a1.Value() - step;
      q2 := AddNum(q, Big(x));
    }
    Nearer(sign, a1.Mag(), step, a2.sign, a2.Mag());
    Regroup(NumValue(q), x.Mag(), b1.Mag(), sign);
    sign2 := if a2.sign != sign then -sign else sign;
  }

  /** A smaller magnitude has no more significant words. */
  lemma ShorterHi(s: seq<Word>, n: nat, t: seq<Word>)
    requires |s| >= 1 && |t| >= 1 && n == HiOf(s) && Val(s) <= Val(t)
    ensures n <= |t|
  {
    hide Val;
    hide HiOf;
    if HiOf(t) < n {
      HiOrders(t, HiOf(t), s, n);
    }
  }

  lemma Nearer(sign: int, mag: int, y: int, sign2: int, mag2: int)
    requires (sign == 1 || sign == -1) && (sign2 == 1 || sign2 == -1) && mag2 >= 0
    requires 0 < y < 2 * mag && sign2 * mag2 == sign * mag + (if sign < 0 then y else -y)
    ensures mag2 < mag
  {
  }

  lemma Regroup(q: int, x: int, n: int, sign: int)
    ensures (q - x) * n == q * n - x * n && (q + x) * n == q * n + x * n
  {
  }

  lemma QuotientSign(m: int, q: int, n: int, a: int)
    requires 0 <= m == q * n + a && Abs(a) < n
    ensures q >= 0 && (a < 0 ==> q >= 1)
  {
    if q <= -1 {
      MulLe(n, q, -1);
    }
    if q == 0 {
      assert q * n == 0;
    }
  }

  /** Undo the last overshoot, so that the remainder is not negative. */
  method Finish(a1: Bignum, b1: Bignum, q: Num, sign: int, ghost m: nat) returns (q2: Num, r: Num)
    requires a1.Valid() && b1.Valid() && b1.sign == 1 && a1.sign == sign && a1.Mag() < b1.Mag()
    requires ValidNum(q) && Balanced(m, NumValue(q), b1.Mag(), a1.Value()) && q != Big(a1)
    ensures ValidNum(q2) && ValidNum(r) && (r.Big? ==> q2 != r) && (q2 == q || FreshNum(q2)) && (r == Big(a1) || FreshNum(r))
    ensures m == NumValue(q2) * b1.Mag() + NumValue(r) && 0 <= NumValue(r) < b1.Mag() && NumValue(q2) >= 0
  {
    hide Val;
    hide Pow;
    QuotientSign(m, NumValue(q), b1.Mag(), a1.Value());
    Regroup(NumValue(q), 1, b1.Mag(), 1);
    r := Normalize(a1);
    q2 := q;
    if sign < 0 && r != Fix(0) {
      q2 := SubNum(q, Fix(1));
      r := AddNum(r, Big(b1));
    }
  }
}
