/**
  Positional notation: what a row of 64-bit words stands for, least
  significant word first.
*/
module Digits {
  const BASE: int := 0x1_0000_0000_0000_0000
  const HALF_BASE: int := 0x1_0000_0000

  type Word = x: int | 0 <= x < BASE

  /** Two words: what the double-width intermediate results must fit in. */
  type DoubleWord = x: int | 0 <= x < BASE * BASE

  function Pow(k: nat): (r: nat)
    ensures r > 0
  {
    if k == 0 then 1 else BASE * Pow(k - 1)
  }

  function Val(s: seq<Word>): nat {
    if s == [] then 0 else s[0] + BASE * Val(s[1..])
  }

  ghost predicate Zeros(s: seq<Word>) {
    forall i :: 0 <= i < |s| ==> s[i] == 0
  }

  /** The number of significant words, at least one. */
  ghost predicate IsHi(s: seq<Word>, n: nat) {
    && 1 <= n <= |s|
    && Zeros(s[n..])
    && (n > 1 ==> s[n - 1] > 0)
  }

  /** How many words of `s` are significant: the last one is always counted. */
  ghost function HiOf(s: seq<Word>): (n: nat)
    requires |s| >= 1
    ensures IsHi(s, n)
  {
    if |s| == 1 || s[|s| - 1] > 0 then |s| else HiOf(s[..|s| - 1])
  }

  lemma {:induction false} PowAdd(i: nat, j: nat)
    ensures Pow(i + j) == Pow(i) * Pow(j)
  {
    if i > 0 {
      PowAdd(i - 1, j);
      MulAssoc(BASE, Pow(i - 1), Pow(j));
    }
  }

  lemma MulAssoc(a: int, b: int, c: int)
    ensures a * b * c == a * (b * c)
  {
  }

  lemma MulLe(k: nat, a: int, b: int)
    requires a <= b
    ensures k * a <= k * b
  {
  }

  lemma MulLt(k: nat, a: int, b: int)
    requires k > 0 && a < b
    ensures k * a < k * b
  {
  }

  lemma {:induction false} ValAppend(s: seq<Word>, t: seq<Word>)
    ensures Val(s + t) == Val(s) + Pow(|s|) * Val(t)
  {
    if s == [] {
      assert s + t == t;
    } else {
      ValAppend(s[1..], t);
      assert (s + t)[1..] == s[1..] + t;
      MulAssoc(BASE, Pow(|s| - 1), Val(t));
    }
  }

  /** One more word on top. */
  lemma ValTake(s: seq<Word>, i: nat)
    requires i < |s|
    ensures Val(s[..i + 1]) == Val(s[..i]) + Pow(i) * s[i]
  {
    assert s[..i + 1] == s[..i] + [s[i]];
    ValAppend(s[..i], [s[i]]);
    assert Val([s[i]]) == s[i];
  }

  lemma ValTop(s: seq<Word>, x: Word)
    ensures Val(s + [x]) == Val(s) + x * Pow(|s|)
  {
    hide Pow;
    hide Val;
    ValAppend(s, [x]);
    ValOne(x);
  }

  lemma ValOne(x: Word)
    ensures Val([x]) == x
  {
    assert Val([x][1..]) == 0;
  }

  lemma ValSplit(s: seq<Word>, i: nat)
    requires i <= |s|
    ensures Val(s) == Val(s[..i]) + Pow(i) * Val(s[i..])
  {
    assert s == s[..i] + s[i..];
    ValAppend(s[..i], s[i..]);
  }

  lemma {:induction false} ValBound(s: seq<Word>)
    ensures Val(s) < Pow(|s|)
  {
    if s != [] {
      ValBound(s[1..]);
      assert Val(s) <= (BASE - 1) + BASE * (Pow(|s| - 1) - 1);
    }
  }

  lemma {:induction false} ValZeros(s: seq<Word>)
    requires Zeros(s)
    ensures Val(s) == 0
  {
    if s != [] {
      ValZeros(s[1..]);
    }
  }

  /** Leading zero words do not count. */
  lemma ValPad(s: seq<Word>, n: nat)
    requires n <= |s| && Zeros(s[n..])
    ensures Val(s) == Val(s[..n])
  {
    ValSplit(s, n);
    ValZeros(s[n..]);
  }

  /** With `n` significant words the value is at least that of its top word. */
  lemma ValHi(s: seq<Word>, n: nat)
    requires IsHi(s, n)
    ensures Val(s) == Val(s[..n]) < Pow(n)
    ensures Pow(n - 1) * s[n - 1] <= Val(s)
    ensures n > 1 ==> Pow(n - 1) <= Val(s)
  {
    ValPad(s, n);
    ValBound(s[..n]);
    ValTake(s, n - 1);
    if n > 1 {
      MulLe(Pow(n - 1), 1, s[n - 1]);
    }
  }

  lemma HiUnique(s: seq<Word>, n: nat)
    requires |s| >= 1 && IsHi(s, n)
    ensures HiOf(s) == n
  {
    var m := HiOf(s);
    if m < n {
      ZeroAt(s, m, n - 1);
    } else if n < m {
      ZeroAt(s, n, m - 1);
    }
  }

  lemma ZeroAt(s: seq<Word>, k: nat, i: nat)
    requires k <= i < |s| && Zeros(s[k..])
    ensures s[i] == 0
  {
    assert s[k..][i - k] == s[i];
  }

  lemma LowWord(s: seq<Word>)
    requires s != []
    ensures s[0] == Val(s) % BASE && Val(s[1..]) == Val(s) / BASE
  {
  }

  /** Rows of the same length denote the same number only when they are equal. */
  lemma {:induction false} ValInjective(s: seq<Word>, t: seq<Word>)
    requires |s| == |t| && Val(s) == Val(t)
    ensures s == t
  {
    if s != [] {
      LowWord(s);
      LowWord(t);
      ValInjective(s[1..], t[1..]);
      assert s == [s[0]] + s[1..] && t == [t[0]] + t[1..];
    }
  }

  lemma PowMono(i: nat, j: nat)
    requires i <= j
    ensures Pow(i) <= Pow(j)
  {
    PowAdd(i, j - i);
    MulLe(Pow(i), 1, Pow(j - i));
  }

  /** The number of significant words orders values. */
  lemma HiOrders(s: seq<Word>, m: nat, t: seq<Word>, n: nat)
    requires IsHi(s, m) && IsHi(t, n) && m < n
    ensures Val(s) < Val(t)
  {
    ValHi(s, m);
    ValHi(t, n);
    PowMono(m, n - 1);
  }

  // ----------------------------------------------------------- powers of two

  function Two(k: nat): (r: nat)
    ensures r > 0
  {
    if k == 0 then 1 else 2 * Two(k - 1)
  }

  lemma {:induction false} TwoAdd(i: nat, j: nat)
    ensures Two(i + j) == Two(i) * Two(j)
  {
    if i > 0 {
      TwoAdd(i - 1, j);
      MulAssoc(2, Two(i - 1), Two(j));
    }
  }

  lemma {:induction false} TwoMono(i: nat, j: nat)
    requires i <= j
    ensures Two(i) <= Two(j)
  {
    if i < j {
      TwoMono(i, j - 1);
    }
  }

  lemma TwoBase()
    ensures Two(64) == BASE
  {
    assert Two(8) == 256;
    TwoAdd(8, 8);
    TwoAdd(16, 16);
    TwoAdd(32, 32);
  }

  lemma {:induction false} TwoPow(n: nat)
    ensures Two(64 * n) == Pow(n)
  {
    if n > 0 {
      TwoPow(n - 1);
      TwoAdd(64, 64 * (n - 1));
      TwoBase();
    }
  }

  // ------------------------------------------------------------- single bits

  /** Bitwise conjunction. */
  function BitAnd(x: nat, y: nat): nat {
    if x == 0 || y == 0 then 0 else 2 * BitAnd(x / 2, y / 2) + (if x % 2 == 1 && y % 2 == 1 then 1 else 0)
  }

  lemma {:induction false} BitAndSelf(x: nat)
    ensures BitAnd(x, x) == x
  {
    if x > 0 {
      BitAndSelf(x / 2);
    }
  }

  /** `b & (b - 1)` is zero only for powers of two, whose remainder is a mask. */
  lemma {:induction false} MaskIsRemainder(x: nat, b: nat)
    requires b > 0 && BitAnd(b, b - 1) == 0
    ensures BitAnd(x, b - 1) == x % b
  {
    if b > 1 {
      var c := b / 2;
      if b % 2 == 1 {
        BitAndSelf(c);
      } else {
        assert b - 1 == 2 * (c - 1) + 1 && (b - 1) / 2 == c - 1;
        assert c > 1 ==> BitAnd(b, b - 1) == 2 * BitAnd(c, c - 1);
        MaskIsRemainder(x / 2, c);
        RemainderByEven(x, c);
      }
    }
  }

  lemma DoublePower(c: nat)
    requires c > 0 && BitAnd(c, c - 1) == 0
    ensures BitAnd(2 * c, 2 * c - 1) == 0
  {
    assert (2 * c - 1) / 2 == c - 1;
  }

  lemma BytePower(c: nat)
    requires c > 0 && BitAnd(c, c - 1) == 0
    ensures BitAnd(0x100 * c, 0x100 * c - 1) == 0
  {
    hide BitAnd;
    DoublePower(c);
    DoublePower(2 * c);
    DoublePower(4 * c);
    DoublePower(8 * c);
    DoublePower(16 * c);
    DoublePower(32 * c);
    DoublePower(64 * c);
    DoublePower(128 * c);
  }

  lemma BaseIsPower()
    ensures BitAnd(BASE, BASE - 1) == 0
  {
    assert BitAnd(1, 0) == 0;
    BasePowerFrom(1);
  }

  lemma BasePowerFrom(c: nat)
    requires c > 0 && BitAnd(c, c - 1) == 0
    ensures BitAnd(BASE * c, BASE * c - 1) == 0
  {
    hide BitAnd;
    BytePower(c);
    BytePower(0x100 * c);
    BytePower(0x1_0000 * c);
    BytePower(0x100_0000 * c);
    BytePower(0x1_0000_0000 * c);
    BytePower(0x100_0000_0000 * c);
    BytePower(0x1_0000_0000_0000 * c);
    BytePower(0x100_0000_0000_0000 * c);
  }

  /** Among powers of two the smaller divides the larger. */
  lemma {:induction false} PowersOfTwoDivide(b: nat, m: nat)
    requires 0 < b <= m && BitAnd(b, b - 1) == 0 && BitAnd(m, m - 1) == 0
    ensures m % b == 0
  {
    if b > 1 {
      BitAndSelf(b / 2);
      BitAndSelf(m / 2);
      var c, n := b / 2, m / 2;
      assert b == 2 * c && m == 2 * n;
      assert (b - 1) / 2 == c - 1 && (m - 1) / 2 == n - 1;
      PowersOfTwoDivide(c, n);
      RemainderByEven(m, c);
    }
  }

  lemma RemainderByEven(x: nat, c: nat)
    requires c > 0
    ensures x % (2 * c) == 2 * ((x / 2) % c) + x % 2
  {
    var q, r := (x / 2) / c, (x / 2) % c;
    assert x == 2 * (q * c + r) + x % 2;
    assert 2 * (q * c) == q * (2 * c);
    DivModUnique(x, 2 * c, q, 2 * r + x % 2);
  }

  /** The quotient of a number below `m * d` is below `m`. */
  lemma QuotientFits(x: int, d: int, m: int)
    requires d > 0 && 0 <= x < m * d
    ensures 0 <= x / d < m && 0 <= x - x / d * d < d
  {
    if x / d >= m {
      MulLe(d, m, x / d);
    }
  }

  lemma DivModUnique(x: int, d: int, q: int, r: int)
    requires d > 0 && x == q * d + r && 0 <= r < d
    ensures x / d == q && x % d == r
  {
    var q1, r1 := x / d, x % d;
    assert (q1 - q) * d == r - r1;
    if q1 != q {
      FarFromZero(q1 - q, d);
    }
  }

  lemma FarFromZero(x: int, d: int)
    requires x != 0 && d > 0
    ensures x * d >= d || x * d <= -d
  {
    if x > 0 {
      MulLe(d, 1, x);
    } else {
      MulLe(d, x, -1);
    }
  }

  lemma Distribute(x: int, y: int, k: int)
    ensures (x + y) * k == x * k + y * k
  {
  }

  lemma Commute(x: int, y: int)
    ensures x * y == y * x
  {
  }
}
