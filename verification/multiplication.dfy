/**
  Karatsuba multiplication of big integers, and exponentiation by squaring.
*/
module Multiplication {
  import opened Digits
  import opened Bignums
  import opened Addition

  /** Split the magnitude after the lowest `k` words. */
  method Split(a: Bignum, k: nat, alen: nat) returns (lo: Bignum, hi: Bignum)
    requires a.Valid() && alen == HiOf(a.data[..]) && 1 <= k < alen
    ensures lo.Valid() && fresh(lo) && fresh(lo.data) && lo.sign == 1 && hi.Valid() && fresh(hi) && fresh(hi.data) && hi.sign == 1
    ensures a.Mag() == hi.Mag() * Pow(k) + lo.Mag() && hi.Mag() > 0
    ensures hi.Mag() + lo.Mag() < a.Mag() && lo.Mag() < a.Mag() && hi.Mag() < a.Mag()
  {
    hide Val;
    hide HiOf;
    ghost var s := a.data[..];
    lo := new Bignum(k);
    hi := new Bignum(alen - k + 1);
    forall i | 0 <= i < k {
      lo.data[i] := a.data[i];
    }
    assert hi.data[alen - k] == 0;
    forall i | k <= i < alen {
      hi.data[i - k] := a.data[i];
    }
    assert a.data[..] == s && lo.data[..] == s[..k] && hi.data[..alen - k] == s[k..alen];
    SplitValue(s, k, alen, lo.data[..], hi.data[..]);
  }

  lemma SplitValue(s: seq<Word>, k: nat, len: nat, lo: seq<Word>, hi: seq<Word>)
    requires |s| >= 1 && len == HiOf(s) && 1 <= k < len
    requires lo == s[..k] && |hi| == len - k + 1 && hi[..len - k] == s[k..len] && hi[len - k] == 0
    ensures Val(s) == Val(hi) * Pow(k) + Val(lo) && Val(hi) > 0
    ensures Val(hi) + Val(lo) < Val(s)
  {
    hide Val;
    hide HiOf;
    hide Pow;
    assert s[..len][..k] == lo && s[..len][k..] == s[k..len];
    assert hi[len - 1 - k] == hi[..len - k][len - 1 - k] == s[len - 1];
    ValPad(s, len);
    ValSplit(s[..len], k);
    ValPad(hi, len - k);
    NonzeroWord(hi, len - 1 - k);
    SplitSmaller(Val(hi), Val(lo), k);
    Commute(Val(hi), Pow(k));
  }

  lemma SplitSmaller(hi: nat, lo: nat, k: nat)
    requires hi > 0 && k >= 1
    ensures hi + lo < hi * Pow(k) + lo
  {
    PowMono(1, k);
    assert Pow(1) == BASE;
    MulLt(hi, 1, Pow(k));
  }

  /** The magnitude times BASE^k. */
  method Shift(a: Bignum, k: nat) returns (res: Bignum)
    requires a.Valid()
    ensures res.Valid() && fresh(res) && fresh(res.data) && res.sign == 1
    ensures res.Mag() == a.Mag() * Pow(k)
  {
    hide Val;
    hide HiOf;
    var alen := a.Hi();
    ghost var s := a.data[..];
    res := new Bignum(alen + k + 1);
    assert res.data[alen + k] == 0;
    forall i | 0 <= i < alen {
      res.data[i + k] := a.data[i];
    }
    assert a.data[..] == s;
    ShiftValue(s, k, alen, res.data[..]);
  }

  lemma ShiftValue(s: seq<Word>, k: nat, len: nat, r: seq<Word>)
    requires |s| >= 1 && len == HiOf(s) && |r| == len + k + 1 && r[len + k] == 0
    requires forall i :: 0 <= i < k ==> r[i] == 0
    requires forall i :: 0 <= i < len ==> r[i + k] == s[i]
    ensures Val(r) == Val(s) * Pow(k)
  {
    hide Val;
    hide HiOf;
    ValPad(s, len);
    ValPad(r, len + k);
    var t := r[..len + k];
    assert t[k..] == s[..len];
    ValSplit(t, k);
    ValZeros(t[..k]);
    Commute(Val(s), Pow(k));
  }

  /** The exact signed product. */
  method Mul(a: Bignum, b: Bignum) returns (r: Bignum)
    requires a.Valid() && b.Valid()
    ensures r.Valid() && fresh(r) && fresh(r.data)
    ensures r.sign == a.sign * b.sign && r.Mag() == a.Mag() * b.Mag()
    ensures r.Value() == a.Value() * b.Value()
    decreases a.Mag() + b.Mag(), HiOf(a.data[..]) < HiOf(b.data[..])
  {
    hide Val;
    hide HiOf;
    hide Pow;
    var alen := a.Hi();
    var blen := b.Hi();
    SignedProduct(a.sign, a.Mag(), b.sign, b.Mag());
    if alen < blen {
      r := Mul(b, a);
      Commute(a.Mag(), b.Mag());
      return;
    }
    if blen == 1 {
      r := FxMul(null, a, b.data[0], 0);
      SingleWord(b.data[..]);
      UnitPower(a.Mag() * b.Mag());
    } else {
      r := Karatsuba(a, b, alen, blen);
    }
    r.sign := a.sign * b.sign;
  }

  /** ab = z2 BASE^2k + z1 BASE^k + z0, with the middle term from one product of sums. */
  method Karatsuba(a: Bignum, b: Bignum, alen: nat, blen: nat) returns (z1: Bignum)
    requires a.Valid() && b.Valid() && alen == HiOf(a.data[..]) && blen == HiOf(b.data[..]) && 2 <= blen <= alen
    ensures z1.Valid() && fresh(z1) && fresh(z1.data) && z1.Mag() == a.Mag() * b.Mag()
    decreases a.Mag() + b.Mag(), false, 0
  {
    hide Val;
    hide HiOf;
    hide Pow;
    hide Bignum.Value;
    var k := blen / 2;
    var a0, a1 := Split(a, k, alen);
    var b0, b1 := Split(b, k, blen);
    var z0, sums, z2 := Products(a0, a1, b0, b1);
    ThreeProducts(a0.Mag(), a1.Mag(), b0.Mag(), b1.Mag(), Pow(k), z0.Mag(), sums.Mag(), z2.Mag());
    z1 := Assemble(z0, sums, z2, k);
  }

  method Products(a0: Bignum, a1: Bignum, b0: Bignum, b1: Bignum) returns (z0: Bignum, sums: Bignum, z2: Bignum)
    requires a0.Valid() && a1.Valid() && b0.Valid() && b1.Valid() && a0.sign == a1.sign == b0.sign == b1.sign == 1
    requires a1.Mag() > 0 && b1.Mag() > 0
    ensures z0.Valid() && z0.sign == 1 && z0.Mag() == a0.Mag() * b0.Mag()
    ensures sums.Valid() && sums.sign == 1 && sums.Mag() == (b1.Mag() + b0.Mag()) * (a1.Mag() + a0.Mag())
    ensures z2.Valid() && z2.sign == 1 && z2.Mag() == a1.Mag() * b1.Mag()
    decreases a1.Mag() + a0.Mag() + b1.Mag() + b0.Mag() + 1
  {
    hide Val;
    hide HiOf;
    hide Pow;
    hide Bignum.Value;
    z0 := Add(null, a1, a0);
    sums := Add(null, b1, b0);
    sums := Mul(sums, z0);
    z0 := Mul(a0, b0);
    z2 := Mul(a1, b1);
  }

  /** The middle term is what the product of sums has beyond the outer products. */
  lemma ThreeProducts(x0: nat, x1: nat, y0: nat, y1: nat, p: int, z0: int, sums: int, z2: int)
    requires z0 == x0 * y0 && sums == (y1 + y0) * (x1 + x0) && z2 == x1 * y1
    ensures z0 + z2 <= sums
    ensures z2 * (p * p) + (sums - z2 - z0) * p + z0 == (x1 * p + x0) * (y1 * p + y0)
  {
    Middle(x0, x1, y0, y1);
    Recombine(x0, x1, y0, y1, p);
  }

  /** Take the outer products off the middle one, and add the three at their places. */
  method Assemble(z0: Bignum, sums: Bignum, z2: Bignum, k: nat) returns (z1: Bignum)
    requires z0.Valid() && sums.Valid() && z2.Valid() && z0.sign == sums.sign == z2.sign == 1
    requires z0.Mag() + z2.Mag() <= sums.Mag()
    ensures z1.Valid() && fresh(z1) && fresh(z1.data)
    ensures z1.Mag() == z2.Mag() * (Pow(k) * Pow(k)) + (sums.Mag() - z2.Mag() - z0.Mag()) * Pow(k) + z0.Mag()
  {
    hide Val;
    hide HiOf;
    hide Pow;
    hide Bignum.Value;
    z1 := Sub(sums, z0);
    z1 := Sub(z1, z2);
    ghost var middle := sums.Mag() - z2.Mag() - z0.Mag();
    assert z1.Mag() == middle;
    var high := Shift(z2, 2 * k);
    PowAdd(k, k);
    z1 := Shift(z1, k);
    assert z1.Mag() == middle * Pow(k);
    z1 := Add(z1, z1, z0);
    z1 := Add(z1, z1, high);
  }

  lemma SignedProduct(s: int, x: int, t: int, y: int)
    ensures (s * t) * (x * y) == (s * x) * (t * y)
  {
    assert (s * x) * (t * y) == s * (x * (t * y)) == s * (t * (x * y));
    assert (s * t) * (x * y) == s * (t * (x * y));
  }

  lemma UnitPower(x: int)
    ensures x * Pow(0) == x
  {
  }

  /** The middle term never goes negative. */
  lemma Middle(x0: int, x1: int, y0: int, y1: int)
    requires x0 >= 0 && x1 >= 0 && y0 >= 0 && y1 >= 0
    ensures (y1 + y0) * (x1 + x0) == x1 * y1 + (x1 * y0 + x0 * y1) + x0 * y0
    ensures x1 * y0 + x0 * y1 >= 0 && x1 * y1 >= 0
  {
    MulLe(x1, 0, y0);
    MulLe(x0, 0, y1);
    MulLe(x1, 0, y1);
  }

  lemma Recombine(x0: int, x1: int, y0: int, y1: int, p: int)
    ensures (x1 * p + x0) * (y1 * p + y0) == x1 * y1 * (p * p) + (x1 * y0 + x0 * y1) * p + x0 * y0
  {
    assert (x1 * p + x0) * (y1 * p + y0) == x1 * p * (y1 * p) + x1 * p * y0 + x0 * (y1 * p) + x0 * y0;
    assert x1 * p * (y1 * p) == x1 * y1 * (p * p);
    assert x1 * p * y0 == x1 * y0 * p && x0 * (y1 * p) == x0 * y1 * p;
  }

  // ---------------------------------------------------------- exponentiation

  function Exp(x: int, n: nat): int {
    if n == 0 then 1 else x * Exp(x, n - 1)
  }

  lemma {:induction false} ExpNext(x: int, n: nat)
    ensures Exp(x, n + 1) == x * Exp(x, n) && Exp(x, 0) == 1
  {
  }

  lemma {:induction false} ExpDouble(x: int, n: nat)
    ensures Exp(x, 2 * n) == Exp(x * x, n)
  {
    hide Exp;
    ExpNext(x, 0);
    ExpNext(x * x, 0);
    if n > 0 {
      ExpDouble(x, n - 1);
      ExpNext(x, 2 * n - 2);
      ExpNext(x, 2 * n - 1);
      ExpNext(x * x, n - 1);
      MulAssoc(x, x, Exp(x, 2 * n - 2));
    }
  }

  /** Powers with a non-negative exponent, by repeated squaring. */
  method Expt(a: Bignum, e: nat) returns (r: Num)
    requires a.Valid()
    ensures Normal(r) && NumValue(r) == Exp(a.Value(), e)
  {
    hide Val;
    var res := FromFixnum(1);
    var acc := Copy(a, 0);
    var n := e;
    while n > 0
      invariant res.Valid() && acc.Valid() && res.Value() * Exp(acc.Value(), n) == Exp(a.Value(), e)
    {
      ExpHalf(res.Value(), acc.Value(), n);
      if n % 2 == 1 {
        res := Mul(res, acc);
      }
      n := n / 2;
      acc := Mul(acc, acc);
    }
    r := Normalize(res);
  }

  lemma {:induction false} ExpHalf(res: int, acc: int, n: nat)
    requires n > 0
    ensures res * Exp(acc, n) == (if n % 2 == 1 then res * acc else res) * Exp(acc * acc, n / 2)
  {
    hide Exp;
    ExpDouble(acc, n / 2);
    if n % 2 == 1 {
      ExpNext(acc, n - 1);
      MulAssoc(res, acc, Exp(acc, n - 1));
    }
  }
}
