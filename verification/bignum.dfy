/**
  Signed big integers: a sign and an array of words that the operations
  update in place.  Every operation is stated on the integer it denotes.
*/
module Bignums {
  import opened Digits

  const MAX_FIXNUM: int := 0x3fff_ffff_ffff_ffff
  const MIN_FIXNUM: int := -0x4000_0000_0000_0000

  type Fixnum = x: int | MIN_FIXNUM <= x <= MAX_FIXNUM

  /** A fixnum result keeps its low 63 bits. */
  function Wrap(x: int): (r: Fixnum)
    ensures MIN_FIXNUM <= x <= MAX_FIXNUM ==> r == x
  {
    (x - MIN_FIXNUM) % (MAX_FIXNUM - MIN_FIXNUM + 1) + MIN_FIXNUM
  }

  class Bignum {
    var sign: int
    const data: array<Word>

    ghost predicate Valid()
      reads this
    {
      data.Length >= 1 && (sign == 1 || sign == -1)
    }

    ghost function Mag(): nat
      reads data
    {
      Val(data[..])
    }

    ghost function Value(): int
      reads this, data
    {
      sign * Mag()
    }

    constructor (length: nat)
      requires length >= 1
      ensures Valid() && fresh(data) && sign == 1 && data.Length == length && Zeros(data[..])
      ensures Mag() == 0 && forall i :: 0 <= i < length ==> data[i] == 0
    {
      sign := 1;
      data := new Word[length](_ => 0);
      new;
      ValZeros(data[..]);
    }

    /** Number of significant words. */
    method Hi() returns (n: nat)
      requires Valid()
      ensures n == HiOf(data[..])
    {
      var i := data.Length - 1;
      assert data[..i + 1] == data[..];
      while i > 0 && data[i] == 0
        invariant 0 <= i < data.Length && HiOf(data[..]) == HiOf(data[..i + 1])
      {
        assert data[..i + 1][..i] == data[..i];
        i := i - 1;
      }
      return i + 1;
    }

    method IsZero() returns (zero: bool)
      requires Valid()
      ensures zero <==> Mag() == 0
    {
      hide Val;
      hide Pow;
      var i := data.Length - 1;
      while i >= 0
        invariant -1 <= i < data.Length && forall j :: i < j < data.Length ==> data[j] == 0
      {
        if data[i] != 0 {
          NonzeroWord(data[..], i);
          return false;
        }
        i := i - 1;
      }
      ValZeros(data[..]);
      return true;
    }
  }

  lemma NonzeroWord(s: seq<Word>, i: nat)
    requires i < |s| && s[i] > 0
    ensures Val(s) > 0
  {
    hide Pow;
    ValSplit(s, i);
    assert Val(s[i..]) >= 1;
    MulLe(Pow(i), 1, Val(s[i..]));
  }

  /** Different numbers, stored in different places. */
  ghost predicate Apart(a: Bignum, b: Bignum) {
    a != b && a.data != b.data
  }

  /** A fresh copy of `a` with room for `len0` words, or for as many as `a` has when `len0` is 0. */
  method Copy(a: Bignum, len0: nat) returns (r: Bignum)
    requires a.Valid()
    ensures r.Valid() && fresh(r) && fresh(r.data) && r.sign == a.sign
    ensures r.data.Length == if len0 > 0 then len0 else a.data.Length
    ensures forall i :: 0 <= i < r.data.Length ==> r.data[i] == if i < a.data.Length then a.data[i] else 0
    ensures len0 == 0 ==> r.data[..] == a.data[..] && r.Mag() == a.Mag()
  {
    var len := if len0 > 0 then len0 else a.data.Length;
    r := new Bignum(len);
    r.sign := a.sign;
    forall i | 0 <= i < len && i < a.data.Length {
      r.data[i] := a.data[i];
    }
    assert len0 == 0 ==> r.data[..] == a.data[..];
  }

  method FromFixnum(n: Fixnum) returns (r: Bignum)
    ensures r.Valid() && fresh(r) && fresh(r.data) && r.Value() == n && r.data.Length == 1
    ensures r.sign == if n < 0 then -1 else 1
  {
    r := new Bignum(1);
    var m: int := n;
    r.data[0] := if n < 0 then -m else m;
    r.sign := if n < 0 then -1 else 1;
    assert r.data[..] == [r.data[0]];
  }

  method CompareAbs(a: Bignum, b: Bignum) returns (r: int)
    requires a.Valid() && b.Valid()
    ensures r < 0 <==> a.Mag() < b.Mag()
    ensures r > 0 <==> a.Mag() > b.Mag()
  {
    hide Pow;
    hide Val;
    hide HiOf;
    var ai: int := a.Hi();
    var bi: int := b.Hi();
    if ai != bi {
      if ai < bi {
        HiOrders(a.data[..], ai, b.data[..], bi);
      } else {
        HiOrders(b.data[..], bi, a.data[..], ai);
      }
      return ai - bi;
    }
    ValPad(a.data[..], ai);
    ValPad(b.data[..], bi);
    r := CompareWords(a, b, ai);
  }

  /** Compare the lowest `n` words, from the top down. */
  method CompareWords(a: Bignum, b: Bignum, n: nat) returns (r: int)
    requires n <= a.data.Length && n <= b.data.Length
    ensures r < 0 <==> Val(a.data[..][..n]) < Val(b.data[..][..n])
    ensures r > 0 <==> Val(a.data[..][..n]) > Val(b.data[..][..n])
  {
    hide Pow;
    hide Val;
    ghost var s, t := a.data[..][..n], b.data[..][..n];
    var i: int := n - 1;
    while i >= 0
      invariant -1 <= i < n && forall j :: i < j < n ==> s[j] == t[j]
    {
      if a.data[i] > b.data[i] {
        TopDecides(t, s, i);
        return 1;
      } else if a.data[i] < b.data[i] {
        TopDecides(s, t, i);
        return -1;
      }
      i := i - 1;
    }
    assert s == t;
    return 0;
  }

  /** The highest differing word decides the order. */
  lemma TopDecides(s: seq<Word>, t: seq<Word>, k: nat)
    requires |s| == |t| && k < |s| && s[k] < t[k] && forall j :: k < j < |s| ==> s[j] == t[j]
    ensures Val(s) < Val(t)
  {
    hide Pow;
    hide Val;
    assert s[k + 1..] == t[k + 1..];
    ValSplit(s, k + 1);
    ValSplit(t, k + 1);
    ValTake(s, k);
    ValTake(t, k);
    ValBound(s[..k]);
    MulLe(Pow(k), s[k] + 1, t[k]);
    assert Pow(k) * (s[k] + 1) == Pow(k) * s[k] + Pow(k);
  }

  /** Signed comparison: wrong only on zeros of opposite sign, which it tells apart. */
  method Compare(a: Bignum, b: Bignum) returns (r: int)
    requires a.Valid() && b.Valid()
    ensures a.sign == b.sign || a.Mag() > 0 || b.Mag() > 0 ==>
              (r < 0 <==> a.Value() < b.Value()) && (r > 0 <==> a.Value() > b.Value())
    ensures a.sign != b.sign ==> r == a.sign
  {
    if a.sign != b.sign {
      return a.sign;
    }
    var cmp := CompareAbs(a, b);
    return if a.sign < 0 then -cmp else cmp;
  }

  // ------------------------------------------------------ columns of digits

  /** The low word of a sum or difference. */
  function Low(x: int): Word { x % BASE }

  lemma LowSum(x: Word, carry: Word)
    ensures Low(x + carry) + BASE * (if x > BASE - 1 - carry then 1 else 0) == x + carry
  {
  }

  lemma LowDifference(x: Word, borrow: Word)
    ensures Low(x - borrow) + borrow == x + BASE * (if x < borrow then 1 else 0)
  {
  }

  /** One column of an addition with carry. */
  lemma CarryStep(c: int, a: int, b: int, p: nat, ci: int, ai: int, bi: int, carry: int, next: int)
    requires c + carry * p == a + b && ci + BASE * next == ai + bi + carry
    ensures c + p * ci + next * (BASE * p) == (a + p * ai) + (b + p * bi)
  {
    assert p * ci + p * (BASE * next) == p * (ci + BASE * next);
    assert p * (BASE * next) == next * (BASE * p);
    assert p * (ai + bi + carry) == p * ai + p * bi + carry * p;
  }

  /** One column of a subtraction with borrow. */
  lemma BorrowStep(c: int, a: int, b: int, p: nat, ci: int, ai: int, bi: int, borrow: int, next: int)
    requires c + b == a + borrow * p && ci + bi + borrow == ai + BASE * next
    ensures (c + p * ci) + (b + p * bi) == (a + p * ai) + next * (BASE * p)
  {
    assert p * (ci + bi + borrow) == p * ci + p * bi + borrow * p;
    assert p * (ai + BASE * next) == p * ai + p * (BASE * next);
    assert p * (BASE * next) == next * (BASE * p);
  }

  /** The columns below `i` account for the change, the others are untouched. */
  lemma TailSame(c: seq<Word>, s: seq<Word>, i: nat, change: int)
    requires |c| == |s| && i <= |s| && c[i..] == s[i..]
    requires Val(c[..i]) == Val(s[..i]) + change
    ensures Val(c) == Val(s) + change
  {
    hide Pow;
    hide Val;
    ValSplit(c, i);
    ValSplit(s, i);
  }

  /** The last carry becomes a word of its own. */
  lemma CarryOut(r: seq<Word>, s: seq<Word>, len: nat, change: int)
    requires IsHi(s, len) && |r| == len + 1 && r[len] == 1
    requires Val(r[..len]) + Pow(len) == Val(s[..len]) + change
    ensures Val(r) == Val(s) + change
  {
    hide Pow;
    hide Val;
    ValPad(s, len);
    ValTake(r, len);
    assert r[..len + 1] == r;
  }

  /** No borrow is left past the top of a number that is not less than the subtrahend. */
  lemma BorrowEnds(c: int, b: int, v: int, borrow: int, p: nat)
    requires c + b == v + borrow * p && c < p && b <= v
    ensures borrow <= 0
  {
    if borrow >= 1 {
      MulLe(p, 1, borrow);
    }
  }

  // ---------------------------------------------------- one-word operations

  /** Add the word `b` to the magnitude, in place when the sum fits. */
  method FxAdd(a: Bignum, b: Word) returns (r: Bignum)
    requires a.Valid()
    modifies a.data
    ensures r.Valid() && r.sign == a.sign && r.Mag() == old(a.Mag()) + b
    ensures r == a || (fresh(r) && fresh(r.data))
  {
    hide Val;
    hide Low;
    hide HiOf;
    ghost var s := a.data[..];
    var len := a.Hi();
    var carry: Word, i := b, 0;
    assert Val(a.data[..0]) == Val(s[..0]) && b * Pow(0) == b;
    while true
      invariant 0 <= i < len && a.data[i..] == s[i..]
      invariant Val(a.data[..i]) + carry * Pow(i) == Val(s[..i]) + b
      decreases len - i
    {
      var n := a.data[i];
      ghost var c := a.data[..];
      a.data[i] := Low(n + carry);
      LowSum(n, carry);
      ghost var next := if n > BASE - 1 - carry then 1 else 0;
      FxAddStep(c, a.data[..], s, i, b, carry, next);
      carry := if n > BASE - 1 - carry then 1 else 0;
      i := i + 1;
      if !(i < len && carry > 0) { break; }
    }
    r := a;
    if carry > 0 {
      r := Copy(a, len + 1);
      r.data[len] := 1;
      assert r.data[..][..len] == a.data[..][..len];
      CarryOut(r.data[..], s, len, b);
    } else {
      TailSame(a.data[..], s, i, b);
    }
  }

  lemma FxAddStep(c: seq<Word>, c1: seq<Word>, s: seq<Word>, i: nat, b: int, carry: Word, next: Word)
    requires |c| == |c1| == |s| && i < |s| && c[i..] == s[i..]
    requires c1[..i] == c[..i] && c1[i + 1..] == c[i + 1..] && c1[i] + BASE * next == c[i] + carry
    requires Val(c[..i]) + carry * Pow(i) == Val(s[..i]) + b
    ensures Val(c1[..i + 1]) + next * Pow(i + 1) == Val(s[..i + 1]) + b
    ensures c1[i + 1..] == s[i + 1..]
  {
    hide Val;
    assert s[i + 1..] == s[i..][1..] == c[i..][1..] == c[i + 1..];
    assert s[i] == s[i..][0] == c[i..][0];
    ValTake(c1, i);
    ValTake(s, i);
    CarryStep(Val(c1[..i]), Val(s[..i]), b, Pow(i), c1[i], s[i], 0, carry, next);
  }

  /** Subtract the word `b` from the magnitude, flipping the sign when it is the larger. */
  method FxSub(a: Bignum, b: Word) returns (r: Bignum)
    requires a.Valid()
    modifies a, a.data
    ensures r == a && r.Valid()
    ensures r.sign == if HiOf(old(a.data[..])) == 1 && b > old(a.data[0]) then -old(a.sign) else old(a.sign)
    ensures r.Value() == old(a.sign) * (old(a.Mag()) - b)
  {
    hide Val;
    hide Low;
    hide HiOf;
    ghost var s := a.data[..];
    var len := a.Hi();
    if len == 1 && b > a.data[0] {
      ghost var old0 := a.data[0];
      a.data[0] := b - a.data[0];
      a.sign := -a.sign;
      SingleWord(s);
      HiUnique(a.data[..], 1);
      SingleWord(a.data[..]);
      assert a.data[0] == b - old0;
      assert (-old(a.sign)) * (b - old0) == old(a.sign) * (old0 - b);
    } else {
      var borrow: Word, i := b, 0;
      assert Val(a.data[..0]) == Val(s[..0]) && b * Pow(0) == b;
      FxFits(s, len, b);
      while borrow > 0
        invariant 0 <= i <= len && a.data[i..] == s[i..] && a.sign == old(a.sign)
        invariant Val(a.data[..i]) + b == Val(s[..i]) + borrow * Pow(i)
        decreases len - i
      {
        if i == len {
          ValBound(a.data[..i]);
          BorrowEnds(Val(a.data[..i]), b, Val(s[..i]), borrow, Pow(i));
        }
        var n := a.data[i];
        ghost var c := a.data[..];
        a.data[i] := Low(n - borrow);
        LowDifference(n, borrow);
        ghost var next := if n < borrow then 1 else 0;
        FxSubStep(c, a.data[..], s, i, b, borrow, next);
        borrow := if n < borrow then 1 else 0;
        i := i + 1;
      }
      TailSame(a.data[..], s, i, -(b as int));
    }
    return a;
  }

  lemma FxSubStep(c: seq<Word>, c1: seq<Word>, s: seq<Word>, i: nat, b: int, borrow: Word, next: Word)
    requires |c| == |c1| == |s| && i < |s| && c[i..] == s[i..]
    requires c1[..i] == c[..i] && c1[i + 1..] == c[i + 1..] && c1[i] + borrow == c[i] + BASE * next
    requires Val(c[..i]) + b == Val(s[..i]) + borrow * Pow(i)
    ensures Val(c1[..i + 1]) + b == Val(s[..i + 1]) + next * Pow(i + 1)
    ensures c1[i + 1..] == s[i + 1..]
  {
    hide Val;
    assert s[i + 1..] == s[i..][1..] == c[i..][1..] == c[i + 1..];
    assert s[i] == s[i..][0] == c[i..][0];
    ValTake(c1, i);
    ValTake(s, i);
    BorrowStep(Val(c1[..i]), Val(s[..i]), b, Pow(i), c1[i], s[i], 0, borrow, next);
  }

  lemma SingleWord(s: seq<Word>)
    requires |s| >= 1 && HiOf(s) == 1
    ensures Val(s) == s[0]
  {
    ValPad(s, 1);
    assert s[..1] == [s[0]];
    assert Val([s[0]]) == s[0];
  }

  lemma FxFits(s: seq<Word>, len: nat, b: Word)
    requires |s| >= 1 && HiOf(s) == len && (len == 1 ==> b <= s[0])
    ensures b <= Val(s[..len])
  {
    hide Val;
    ValPad(s, len);
    if len == 1 {
      SingleWord(s);
    } else {
      ValHi(s, len);
      PowMono(1, len - 1);
      assert Pow(1) == BASE;
    }
  }

  /** The high word of a double word. */
  function High(x: DoubleWord): Word { x / BASE }

  lemma LowHigh(x: DoubleWord)
    ensures Low(x) + BASE * High(x) == x
  {
  }

  /** A product of words plus a word fits in two words. */
  lemma MulAddFits(x: Word, y: Word, carry: Word)
    ensures 0 <= x * y + carry < BASE * BASE
  {
    MulLe(x, y, BASE - 1);
    MulLe(x, 0, y);
  }

  /** Multiply the magnitude by the word `b` and by BASE^offset, into `d` when it is `a` itself. */
  method FxMul(d: Bignum?, a: Bignum, b: Word, offset: nat) returns (r: Bignum)
    requires a.Valid() && (d != null ==> d == a && offset == 0)
    modifies if d == null then {} else {a.data}
    ensures r.Valid() && r.Mag() == old(a.Mag()) * b * Pow(offset)
    ensures r.sign == if d == null then 1 else a.sign
    ensures (d != null && r == d) || (fresh(r) && fresh(r.data))
  {
    hide Val;
    hide Low;
    hide High;
    hide Zeros;
    hide Pow;
    ghost var s := a.data[..];
    var len := a.data.Length;
    if d == null {
      r := new Bignum(len + offset);
      assert Zeros(r.data[..][..offset]) by { TakeZeros(r.data[..], offset); }
      ValZeros(r.data[..][..offset]);
    } else {
      r := a;
    }
    var carry: Word := 0;
    assert Val(r.data[..][..offset]) == 0 && Val(s[..0]) == 0 by { EmptyVal(); }
    for i := 0 to len
      invariant r == a ==> a.data[i..] == s[i..]
      invariant r.sign == if d == null then 1 else a.sign
      invariant Val(r.data[..][..i + offset]) + carry * Pow(i + offset) == Val(s[..i]) * b * Pow(offset)
    {
      MulAddFits(a.data[i], b, carry);
      assert a.data[i] == s[i] by {
        if r == a { assert s[i] == s[i..][0] == a.data[i..][0]; }
      }
      var n: DoubleWord := a.data[i] * b + carry;
      ghost var c := r.data[..];
      r.data[i + offset] := Low(n);
      LowHigh(n);
      FxMulStep(c, r.data[..], s, i, offset, b, carry, High(n));
      carry := High(n);
    }
    assert s[..len] == s;
    assert r.data[..][..len + offset] == r.data[..];
    ghost var product := Val(s) * b * Pow(offset);
    assert Val(r.data[..]) + carry * Pow(len + offset) == product;
    if carry > 0 {
      ghost var c := r.data[..];
      r := Copy(r, len + offset + 1);
      r.data[len + offset] := carry;
      assert r.data[..] == c + [carry];
      ValTop(c, carry);
      assert r.Mag() == product;
    } else {
      assert r.Mag() == product;
    }
  }

  lemma EmptyVal()
    ensures Val([]) == 0
  {
  }

  lemma TakeZeros(s: seq<Word>, n: nat)
    requires n <= |s| && Zeros(s)
    ensures Zeros(s[..n])
  {
  }

  lemma FxMulStep(c: seq<Word>, c1: seq<Word>, s: seq<Word>, i: nat, offset: nat, b: Word, carry: Word, next: Word)
    requires |c| == |c1| == |s| + offset && i < |s|
    requires c1 == c[i + offset := c1[i + offset]] && c1[i + offset] + BASE * next == s[i] * b + carry
    requires Val(c[..i + offset]) + carry * Pow(i + offset) == Val(s[..i]) * b * Pow(offset)
    ensures Val(c1[..i + 1 + offset]) + next * Pow(i + 1 + offset) == Val(s[..i + 1]) * b * Pow(offset)
  {
    hide Val;
    var k := i + offset;
    assert c1[..k] == c[..k];
    ValTake(c1, k);
    ValTake(s, i);
    PowAdd(i, offset);
    MulColumn(Val(c[..k]), Val(s[..i]), Pow(i), Pow(offset), c1[k], s[i], b, carry, next);
  }

  /** One column of a multiplication by a word. */
  lemma MulColumn(c: int, a: int, p: int, o: int, ci: int, ai: int, b: int, carry: int, next: int)
    requires c + carry * (p * o) == a * b * o && ci + BASE * next == ai * b + carry
    ensures c + (p * o) * ci + next * (BASE * (p * o)) == (a + p * ai) * b * o
  {
    var q := p * o;
    Distribute(ci, BASE * next, q);
    Distribute(ai * b, carry, q);
    Commute(q, ci);
    MulAssoc(next, BASE, q);
    ColumnProduct(p, o, ai, b);
    Distribute(a, p * ai, b);
    Distribute(a * b, p * ai * b, o);
  }

  lemma ColumnProduct(p: int, o: int, x: int, b: int)
    ensures x * b * (p * o) == p * x * b * o
  {
    Commute(p, o);
    MulAssoc(x * b, o, p);
    MulAssoc(p, x, b);
    MulAssoc(p, x * b, o);
    Commute(p, x * b * o);
  }

  /** Divide the words from `offset` up by the word `b`, in place; the remainder is returned. */
  method FxDiv(a: Bignum, b: Word, offset: nat) returns (r: Word)
    requires a.Valid() && b > 0 && offset <= a.data.Length
    modifies a.data
    ensures a.data[..offset] == old(a.data[..offset])
    ensures Val(a.data[offset..]) == old(Val(a.data[offset..])) / b
    ensures r as int == old(Val(a.data[offset..])) % b
  {
    hide Val;
    hide HiOf;
    ghost var s := a.data[..];
    var len := a.Hi();
    r := 0;
    var top := if offset <= len then len else offset;
    ValZeros(s[top..]);
    assert a.data[top..] == s[top..];
    for i := top downto offset
      invariant a.data[..i] == s[..i] && r < b
      invariant Val(s[i..]) == Val(a.data[i..]) * b + r
    {
      ghost var c := a.data[..];
      assert c[i] == c[..i + 1][i] == s[..i + 1][i] == s[i];
      ghost var above := r;
      var q;
      q, r := DivideWord(r, a.data[i], b);
      a.data[i] := q;
      FxDivStep(c, a.data[..], s, i, b, above, r);
    }
    assert s[offset..] == old(a.data[offset..]);
    assert a.data[..offset] == s[..offset] == old(a.data[..offset]);
    DivModUnique(Val(s[offset..]), b, Val(a.data[offset..]), r);
  }

  lemma DivideFits(r: Word, x: Word, b: Word)
    requires r < b
    ensures 0 <= r * BASE + x < BASE * BASE
    ensures 0 <= (r * BASE + x) / b < BASE
    ensures 0 <= (r * BASE + x) - (r * BASE + x) / b * b < b
  {
    assert r * BASE + x < BASE * b;
    QuotientFits(r * BASE + x, b, BASE);
  }

  /** Divide the remainder so far, followed by one more word. */
  method DivideWord(r: Word, x: Word, b: Word) returns (q: Word, r1: Word)
    requires r < b
    ensures r * BASE + x == q * b + r1 && r1 < b
  {
    DivideFits(r, x, b);
    var n: DoubleWord := r * BASE + x;
    q := n / b;
    r1 := n - q * b;
  }

  lemma FxDivStep(c: seq<Word>, c1: seq<Word>, s: seq<Word>, i: nat, b: Word, r: Word, r1: Word)
    requires |c| == |c1| == |s| && i < |s| && c1 == c[i := c1[i]]
    requires Val(s[i + 1..]) == Val(c[i + 1..]) * b + r
    requires r * BASE + s[i] == c1[i] * b + r1
    ensures Val(s[i..]) == Val(c1[i..]) * b + r1
  {
    assert s[i..][1..] == s[i + 1..] && c1[i..][1..] == c1[i + 1..] == c[i + 1..];
    var v := Val(c[i + 1..]);
    assert BASE * (v * b + r) == BASE * (v * b) + r * BASE;
    assert (c1[i] + BASE * v) * b == c1[i] * b + BASE * (v * b);
  }

  datatype Result<T> = Ok(value: T) | DivideByZero

  /** Remainder by a fixnum, with the dividend's sign; powers of two are masked. */
  method FxRem(a: Bignum, b: Fixnum) returns (r: Result<Fixnum>)
    requires a.Valid()
    ensures r.DivideByZero? <==> b == 0
    ensures b != 0 ==> r.value as int == a.sign * (a.Mag() % (if b < 0 then -(b as int) else b))
  {
    hide Val;
    hide HiOf;
    hide Pow;
    hide BitAnd;
    var len := a.Hi();
    if b > 0 && BitAnd(b, b - 1) == 0 {
      MaskIsRemainder(a.data[0], b);
      MaskLowWord(a.data[..], b);
      return Ok(Signed(a.sign, BitAnd(a.data[0], b - 1)));
    }
    var b0: int := b;
    b0 := if b0 >= 0 then b0 else -b0;
    if b0 == 0 {
      return DivideByZero;
    }
    var n := RemainderWords(a, len, b0);
    return Ok(Signed(a.sign, n));
  }

  /** The remainder of the lowest `len` words, carried down from the top. */
  method RemainderWords(a: Bignum, len: nat, b: int) returns (n: int)
    requires a.Valid() && len == HiOf(a.data[..]) && 0 < b <= MAX_FIXNUM + 1
    ensures IsRemainder(a.Mag(), b, n)
  {
    hide Val;
    hide HiOf;
    hide IsRemainder;
    n := 0;
    ghost var s := a.data[..];
    NoRemainder(s[len..], b);
    for i := len downto 0
      invariant 0 <= n < b
      invariant IsRemainder(Val(s[i..]), b, n)
    {
      ghost var above := n;
      var q;
      q, n := DivideWord(n, a.data[i], b);
      RemStep(s, i, b, above, q, n);
    }
    assert s[0..] == s;
  }

  function Signed(sign: int, n: nat): Fixnum
    requires (sign == 1 || sign == -1) && n <= MAX_FIXNUM
  {
    var m: int := n;
    if sign == 1 then m else -m
  }

  ghost predicate IsRemainder(v: int, b: int, n: int) {
    b != 0 && n == v % b
  }

  lemma NoRemainder(s: seq<Word>, b: int)
    requires Zeros(s) && 0 < b
    ensures IsRemainder(Val(s), b, 0)
  {
    ValZeros(s);
  }

  lemma RemStep(s: seq<Word>, i: nat, b: int, n: int, q: int, n1: int)
    requires i < |s| && 0 < b && IsRemainder(Val(s[i + 1..]), b, n)
    requires n * BASE + s[i] == q * b + n1 && 0 <= n1 < b
    ensures IsRemainder(Val(s[i..]), b, n1)
  {
    assert s[i..][1..] == s[i + 1..];
    var v := Val(s[i + 1..]);
    assert v == (v / b) * b + n;
    assert BASE * ((v / b) * b + n) == (BASE * (v / b)) * b + n * BASE;
    assert (BASE * (v / b) + q) * b == (BASE * (v / b)) * b + q * b;
    DivModUnique(Val(s[i..]), b, BASE * (v / b) + q, n1);
  }

  /** A power of two below BASE divides every word but the lowest. */
  lemma MaskLowWord(s: seq<Word>, b: nat)
    requires |s| >= 1 && 0 < b <= MAX_FIXNUM && BitAnd(b, b - 1) == 0
    ensures Val(s) % b == s[0] % b
    ensures s[0] % b <= MAX_FIXNUM
  {
    BaseIsPower();
    PowersOfTwoDivide(b, BASE);
    var v, k := Val(s[1..]), BASE / b;
    assert BASE == k * b;
    assert BASE * v == (k * v) * b by {
      assert k * b * v == (k * v) * b;
    }
    assert s[0] == (s[0] / b) * b + s[0] % b;
    assert (k * v + s[0] / b) * b == (k * v) * b + (s[0] / b) * b;
    DivModUnique(Val(s), b, k * v + s[0] / b, s[0] % b);
  }
}
