/**
  Signed addition and subtraction of big integers, digit loops first.

  `AddDigits` may write into its first operand; `SubDigits` always writes into
  a copy, since it reads the minuend's word again after storing part of the
  result.
*/
module Addition {
  import opened Digits
  import opened Bignums

  /** Sum of magnitudes, written into `dst` when that is the first operand and long enough. */
  method AddDigits(dst: Bignum?, a: Bignum, b: Bignum) returns (c: Bignum)
    requires a.Valid() && b.Valid()
    requires dst == null || ((dst == a || (dst == b && HiOf(b.data[..]) < HiOf(a.data[..]))) && Apart(a, b))
    modifies if dst == null then {} else {dst.data}
    ensures c.Valid() && c.Mag() == old(a.Mag()) + old(b.Mag())
    ensures (dst == a && c == dst) || (fresh(c) && fresh(c.data))
    decreases HiOf(b.data[..]) > HiOf(a.data[..])
  {
    hide Val;
    hide HiOf;
    hide Low;
    hide Pow;
    var alen := a.Hi();
    var blen := b.Hi();
    if alen < blen {
      c := AddDigits(dst, b, a);
      return;
    }
    ghost var s, t := a.data[..], b.data[..];
    c := Destination(dst, a, alen);
    var i := blen;
    var carry := AddColumns(c, a, b, blen);
    carry, i := PropagateCarry(c, carry, blen, alen, s, Val(t[..blen]));
    ValPad(t, blen);
    if carry > 0 {
      ghost var low := c.data[..][..alen];
      c := Copy(c, alen + 1);
      c.data[alen] := 1;
      assert c.data[..][..alen] == low;
      CarryOut(c.data[..], s, alen, Val(t));
    } else {
      TailSame(c.data[..], s, i, Val(t));
    }
  }

  /** Add the lowest `n` words of both operands; `c` holds a copy of `a`, or is `a`. */
  method AddColumns(c: Bignum, a: Bignum, b: Bignum, n: nat) returns (carry: Word)
    requires a.Valid() && b.Valid() && c.Valid() && n <= |a.data[..]| && n <= |b.data[..]|
    requires c.data[..] == a.data[..] && c.data != b.data && (c.data == a.data ==> c == a)
    modifies c.data
    ensures carry <= 1 && c.data[..][n..] == old(a.data[..])[n..]
    ensures Val(c.data[..][..n]) + carry * Pow(n) == Val(old(a.data[..])[..n]) + Val(old(b.data[..])[..n])
  {
    hide Val;
    hide Low;
    hide Pow;
    ghost var s, t := a.data[..], b.data[..];
    carry := 0;
    var i := 0;
    assert Val(c.data[..][..0]) == Val(s[..0]) == Val(t[..0]) == 0 by { EmptyVal(); }
    while i < n
      invariant 0 <= i <= n && carry <= 1
      invariant c.Valid() && c.data[..][i..] == s[i..]
      invariant c != a ==> a.data[..] == s
      invariant b.data[..] == t
      invariant Val(c.data[..][..i]) + carry * Pow(i) == Val(s[..i]) + Val(t[..i])
    {
      ghost var before := c.data[..];
      CurrentWord(a.data[..], c.data[..], s, i, c == a);
      var oldA: int := a.data[i];
      var oldB: int := b.data[i];
      var sum := Low(oldA + oldB);
      c.data[i] := Low(sum + carry);
      LowSum(oldA, oldB);
      LowSum(sum, carry);
      var next: Word := (if oldA > BASE - 1 - oldB then 1 else 0) + (if sum > BASE - 1 - carry then 1 else 0);
      AddDigitsStep(before, c.data[..], s, t, i, carry, next);
      carry := next;
      i := i + 1;
    }
  }

  /** Carry into the words of the longer operand. */
  method PropagateCarry(c: Bignum, carry0: Word, start: nat, len: nat, ghost s: seq<Word>, ghost sum: int)
      returns (carry: Word, i: nat)
    requires c.Valid() && start <= len <= |s| == c.data.Length && carry0 <= 1 && c.data[..][start..] == s[start..]
    requires Val(c.data[..][..start]) + carry0 * Pow(start) == Val(s[..start]) + sum
    modifies c.data
    ensures start <= i <= len && carry <= 1 && (carry > 0 ==> i == len) && c.data[..][i..] == s[i..]
    ensures Val(c.data[..][..i]) + carry * Pow(i) == Val(s[..i]) + sum
  {
    hide Val;
    hide Low;
    hide Pow;
    carry, i := carry0, start;
    while carry > 0 && i < len
      invariant start <= i <= len && carry <= 1 && c.data[..][i..] == s[i..]
      invariant Val(c.data[..][..i]) + carry * Pow(i) == Val(s[..i]) + sum
    {
      ghost var before := c.data[..];
      var x := c.data[i];
      c.data[i] := Low(x as int + 1);
      LowSum(x, 1);
      carry := if x == BASE - 1 then 1 else 0;
      FxAddStep(before, c.data[..], s, i, sum, 1, carry);
      i := i + 1;
    }
  }

  /** Where the sum goes: the destination when it is long enough, or a copy of the longer operand. */
  method Destination(dst: Bignum?, a: Bignum, alen: nat) returns (c: Bignum)
    requires a.Valid() && alen == HiOf(a.data[..])
    requires dst != null && dst != a ==> dst.Valid() && HiOf(dst.data[..]) < alen
    ensures c.Valid() && c.data[..] == a.data[..]
    ensures if dst == a then c == a else fresh(c) && fresh(c.data)
  {
    if dst != null {
      var dlen := dst.Hi();
      if dlen >= alen {
        return dst;
      }
    }
    c := Copy(a, 0);
  }

  /** In place or not, the word about to be added is still the original one. */
  lemma CurrentWord(a: seq<Word>, c: seq<Word>, s: seq<Word>, i: nat, same: bool)
    requires |a| == |c| == |s| && i < |s| && c[i..] == s[i..] && (if same then a == c else a == s)
    ensures a[i] == s[i] == c[i]
  {
    assert c[i] == c[i..][0] && s[i] == s[i..][0];
  }

  lemma AddDigitsStep(c: seq<Word>, c1: seq<Word>, s: seq<Word>, t: seq<Word>, i: nat, carry: Word, next: Word)
    requires |c| == |c1| == |s| && i < |s| && i < |t| && c[i..] == s[i..]
    requires c1 == c[i := c1[i]] && c1[i] + BASE * next == s[i] + t[i] + carry
    requires Val(c[..i]) + carry * Pow(i) == Val(s[..i]) + Val(t[..i])
    ensures Val(c1[..i + 1]) + next * Pow(i + 1) == Val(s[..i + 1]) + Val(t[..i + 1])
    ensures c1[i + 1..] == s[i + 1..]
  {
    hide Val;
    assert s[i + 1..] == s[i..][1..] == c[i..][1..] == c[i + 1..];
    assert c1[..i] == c[..i];
    ValTake(c1, i);
    ValTake(s, i);
    ValTake(t, i);
    CarryStep(Val(c1[..i]), Val(s[..i]), Val(t[..i]), Pow(i), c1[i], s[i], t[i], carry, next);
  }

  ghost function Distance(x: int, y: int): nat {
    if x < y then y - x else x - y
  }

  /** Difference of magnitudes. */
  method SubDigits(a: Bignum, b: Bignum) returns (c: Bignum)
    requires a.Valid() && b.Valid()
    ensures c.Valid() && fresh(c) && fresh(c.data) && c.Mag() == Distance(a.Mag(), b.Mag())
    decreases a.Mag() < b.Mag()
  {
    hide Val;
    hide HiOf;
    var alen := a.Hi();
    var blen := b.Hi();
    var swap := alen < blen;
    if alen < blen {
      HiOrders(a.data[..], alen, b.data[..], blen);
    } else if alen == blen {
      var cmp := CompareAbs(a, b);
      swap := cmp < 0;
    } else {
      HiOrders(b.data[..], blen, a.data[..], alen);
    }
    if swap {
      c := SubDigits(b, a);
      return;
    }
    c := SubDigitsOrdered(a, b, alen, blen);
  }

  method SubDigitsOrdered(a: Bignum, b: Bignum, alen: nat, blen: nat) returns (c: Bignum)
    requires a.Valid() && b.Valid() && b.Mag() <= a.Mag()
    requires alen == HiOf(a.data[..]) && blen == HiOf(b.data[..]) && blen <= alen
    ensures c.Valid() && fresh(c) && fresh(c.data) && c.Mag() == a.Mag() - b.Mag()
  {
    hide Val;
    hide HiOf;
    hide Low;
    hide Pow;
    ghost var s, t := a.data[..], b.data[..];
    c := Copy(a, 0);
    var borrow := SubWords(c, a, b, blen);
    var i;
    borrow, i := PropagateBorrow(c, borrow, blen, alen, s, Val(t[..blen]));
    ValPad(s, alen);
    ValPad(t, blen);
    if borrow > 0 {
      ValBound(c.data[..][..i]);
      BorrowEnds(Val(c.data[..][..i]), Val(t), Val(s[..i]), borrow, Pow(i));
    }
    TailSame(c.data[..], s, i, -(Val(t) as int));
  }

  /** Subtract the words of the shorter operand. */
  method SubWords(c: Bignum, a: Bignum, b: Bignum, blen: nat) returns (borrow: Word)
    requires c.Valid() && a.Valid() && b.Valid() && c.data !in {a.data, b.data} && c.data[..] == a.data[..]
    requires blen <= a.data.Length && blen <= b.data.Length
    modifies c.data
    ensures borrow <= 1 && c.data[..][blen..] == a.data[..][blen..]
    ensures Val(c.data[..][..blen]) + Val(b.data[..][..blen]) == Val(a.data[..][..blen]) + borrow * Pow(blen)
  {
    hide Val;
    hide HiOf;
    hide Low;
    hide Pow;
    ghost var s, t := a.data[..], b.data[..];
    borrow := 0;
    assert Val(c.data[..][..0]) == Val(s[..0]) == Val(t[..0]) == 0 by { EmptyVal(); }
    for i := 0 to blen
      invariant borrow <= 1
      invariant c.data[..][i..] == s[i..]
      invariant Val(c.data[..][..i]) + Val(t[..i]) == Val(s[..i]) + borrow * Pow(i)
    {
      ghost var before := c.data[..];
      var x, y := a.data[i], b.data[i];
      var next: Word := 0;
      if x > y || (x == y && borrow == 0) {
        c.data[i] := x - y - borrow;
      } else {
        c.data[i] := BASE - 1 - y;
        c.data[i] := Low(c.data[i] as int + 1);
        c.data[i] := Low(c.data[i] as int - borrow);
        c.data[i] := Low(c.data[i] as int + x);
        next := 1;
        WrappedDifference(x, y, borrow);
      }
      SubDigitsStep(before, c.data[..], s, t, i, borrow, next);
      borrow := next;
    }
  }

  /** Borrow from the words of the longer operand. */
  method PropagateBorrow(c: Bignum, borrow0: Word, start: nat, len: nat, ghost s: seq<Word>, ghost less: int)
      returns (borrow: Word, i: nat)
    requires c.Valid() && start <= len <= |s| == c.data.Length && borrow0 <= 1 && c.data[..][start..] == s[start..]
    requires Val(c.data[..][..start]) + less == Val(s[..start]) + borrow0 * Pow(start)
    modifies c.data
    ensures start <= i <= len && borrow <= 1 && (borrow > 0 ==> i == len) && c.data[..][i..] == s[i..]
    ensures Val(c.data[..][..i]) + less == Val(s[..i]) + borrow * Pow(i)
  {
    hide Val;
    hide Low;
    hide Pow;
    borrow, i := borrow0, start;
    while borrow > 0 && i < len
      invariant start <= i <= len && borrow <= 1 && c.data[..][i..] == s[i..]
      invariant Val(c.data[..][..i]) + less == Val(s[..i]) + borrow * Pow(i)
    {
      ghost var before := c.data[..];
      var x := c.data[i];
      borrow := if x == 0 then 1 else 0;
      c.data[i] := Low(x as int - 1);
      LowDifference(x, 1);
      FxSubStep(before, c.data[..], s, i, less, 1, borrow);
      i := i + 1;
    }
  }

  /** The wrapping steps compute x + BASE - y - borrow. */
  lemma WrappedDifference(x: Word, y: Word, borrow: Word)
    requires borrow <= 1 && (x < y || (x == y && borrow == 1))
    ensures Low(Low(Low(BASE - 1 - y + 1) - borrow) + x) == x + BASE - y - borrow
  {
  }

  lemma SubDigitsStep(c: seq<Word>, c1: seq<Word>, s: seq<Word>, t: seq<Word>, i: nat, borrow: Word, next: Word)
    requires |c| == |c1| == |s| && i < |s| && i < |t| && c[i..] == s[i..]
    requires c1 == c[i := c1[i]] && c1[i] + t[i] + borrow == s[i] + BASE * next
    requires Val(c[..i]) + Val(t[..i]) == Val(s[..i]) + borrow * Pow(i)
    ensures Val(c1[..i + 1]) + Val(t[..i + 1]) == Val(s[..i + 1]) + next * Pow(i + 1)
    ensures c1[i + 1..] == s[i + 1..]
  {
    hide Val;
    assert s[i + 1..] == s[i..][1..] == c[i..][1..] == c[i + 1..];
    assert c1[..i] == c[..i];
    ValTake(c1, i);
    ValTake(s, i);
    ValTake(t, i);
    BorrowStep(Val(c1[..i]), Val(s[..i]), Val(t[..i]), Pow(i), c1[i], s[i], t[i], borrow, next);
  }

  // ------------------------------------------------------------ signed forms

  /** Exact signed sum; the destination may be the first operand when the signs agree. */
  method Add(dst: Bignum?, a: Bignum, b: Bignum) returns (r: Bignum)
    requires a.Valid() && b.Valid()
    requires dst == null || (dst == a && Apart(a, b) && a.sign == b.sign)
    modifies if dst == null then {} else {dst, dst.data}
    ensures r.Valid() && r.Value() == old(a.Value()) + old(b.Value())
    ensures (dst != null && r == dst) || (fresh(r) && fresh(r.data))
    ensures old(a.sign == b.sign) ==> r.sign == old(a.sign) && r.Mag() == old(a.Mag()) + old(b.Mag())
    ensures old(a.sign != b.sign) ==> r.sign == if a.Mag() >= b.Mag() then a.sign else b.sign
  {
    hide Val;
    if a.sign == b.sign {
      r := AddDigits(dst, a, b);
      r.sign := a.sign;
    } else {
      r := SubDigits(a, b);
      var cmp := CompareAbs(a, b);
      r.sign := if cmp >= 0 then a.sign else b.sign;
    }
  }

  method Sub(a: Bignum, b: Bignum) returns (r: Bignum)
    requires a.Valid() && b.Valid()
    ensures r.Valid() && fresh(r) && fresh(r.data) && r.Value() == a.Value() - b.Value()
    ensures r.sign == if a.sign == b.sign && a.Mag() < b.Mag() then -a.sign else a.sign
    ensures a.sign == b.sign ==> r.Mag() == Distance(a.Mag(), b.Mag())
  {
    hide Val;
    var sign: int;
    if a.sign == b.sign {
      var cmp := CompareAbs(a, b);
      sign := if cmp >= 0 then a.sign else -a.sign;
      r := SubDigits(a, b);
    } else {
      sign := a.sign;
      r := AddDigits(null, a, b);
    }
    r.sign := sign;
  }

  /** The sum with a fixnum, in a copy. */
  method AddFixnum(a: Bignum, b: Fixnum) returns (c: Bignum)
    requires a.Valid()
    ensures c.Valid() && fresh(c) && fresh(c.data) && c.Value() == a.Value() + b
  {
    hide Val;
    hide HiOf;
    c := Copy(a, 0);
    var m: int := b;
    var abs: Word := if m < 0 then -m else m;
    var sign := if b < 0 then -1 else 1;
    if c.sign == sign {
      c := FxAdd(c, abs);
    } else {
      c := FxSub(c, abs);
    }
  }

  // -------------------------------------------------------- fixnum or bignum

  datatype Num = Fix(n: Fixnum) | Big(b: Bignum)

  ghost predicate ValidNum(x: Num)
    reads if x.Big? then {x.b} else {}
  {
    x.Big? ==> x.b.Valid()
  }

  /** No bignum of before the call is shared by `x`. */
  twostate predicate FreshNum(new x: Num)
  {
    x.Big? ==> fresh(x.b) && fresh(x.b.data)
  }

  ghost function NumValue(x: Num): int
    reads if x.Big? then {x.b, x.b.data} else {}
  {
    match x case Fix(n) => n case Big(b) => b.Value()
  }

  /** A bignum stays one exactly when its value is no fixnum. */
  ghost predicate Normal(x: Num)
    reads if x.Big? then {x.b, x.b.data} else {}
  {
    x.Big? ==> x.b.Valid() && !(MIN_FIXNUM <= x.b.Value() <= MAX_FIXNUM)
  }

  method Normalize(a: Bignum) returns (r: Num)
    requires a.Valid()
    ensures Normal(r) && NumValue(r) == a.Value() && (r.Big? ==> r.b == a)
  {
    hide Val;
    hide HiOf;
    var hi := a.Hi();
    if hi > 1 {
      ValHi(a.data[..], hi);
      PowMono(1, hi - 1);
      assert Pow(1) == BASE;
      return Big(a);
    }
    SingleWord(a.data[..]);
    if a.data[0] > MAX_FIXNUM && !(a.sign == -1 && a.data[0] == MAX_FIXNUM + 1) {
      return Big(a);
    }
    var v: int := a.data[0];
    return Fix(if a.sign == 1 then v else -v);
  }

  /** Generic addition of exact integers, with the operands a quotient can have. */
  method AddNum(a: Num, b: Num) returns (r: Num)
    requires ValidNum(a) && ValidNum(b)
    ensures Normal(r) && NumValue(r) == NumValue(a) + NumValue(b)
    ensures r.Big? ==> fresh(r.b) && fresh(r.b.data)
  {
    hide Val;
    hide Pow;
    hide Wrap;
    var s: Bignum;
    match (a, b) {
      case (Fix(m), Fix(n)) =>
        if MIN_FIXNUM <= m + n <= MAX_FIXNUM {
          return Fix(m + n);
        }
        var t := FromFixnum(m);
        s := AddFixnum(t, n);
      case (Fix(m), Big(x)) => s := AddFixnum(x, m);
      case (Big(x), Fix(n)) => s := AddFixnum(x, n);
      case (Big(x), Big(y)) => s := Add(null, y, x);
    }
    r := Normalize(s);
  }

  lemma Negated(sign: int, mag: int)
    ensures (-sign) * mag == -(sign * mag)
  {
  }

  /** Generic subtraction; two fixnums are subtracted without an overflow check, and may wrap. */
  method SubNum(a: Num, b: Num) returns (r: Num)
    requires ValidNum(a) && ValidNum(b)
    ensures a.Fix? && b.Fix? ==> r == Fix(Wrap(a.n as int - b.n))
    ensures Normal(r) && (a.Big? || b.Big? ==> NumValue(r) == NumValue(a) - NumValue(b))
    ensures r.Big? ==> fresh(r.b) && fresh(r.b.data)
  {
    hide Val;
    hide Pow;
    hide Wrap;
    var s: Bignum;
    match (a, b) {
      case (Fix(m), Fix(n)) => return Fix(Wrap(m as int - n));
      case (Fix(m), Big(y)) =>
        var t := FromFixnum(m);
        s := Sub(y, t);
        Negated(s.sign, s.Mag());
        s.sign := -s.sign;
      case (Big(x), Fix(n)) =>
        var t := FromFixnum(n);
        s := Sub(x, t);
      case (Big(x), Big(y)) => s := Sub(x, y);
    }
    r := Normalize(s);
  }

  /** The difference of two fixnums has the right value, and the right sign, exactly when it is a fixnum. */
  lemma FixnumDifference(m: Fixnum, n: Fixnum)
    ensures var d, w := m as int - n, Wrap(m as int - n);
            && (w == d <==> MIN_FIXNUM <= d <= MAX_FIXNUM)
            && (((w < 0 <==> m < n) && (w > 0 <==> m > n)) <==> MIN_FIXNUM <= d <= MAX_FIXNUM)
  {
    FarDifference(m as int - n);
  }

  lemma FarDifference(d: int)
    requires MIN_FIXNUM - MAX_FIXNUM <= d <= MAX_FIXNUM - MIN_FIXNUM
    ensures Wrap(d) == if d < MIN_FIXNUM then d - 2 * MIN_FIXNUM else if d > MAX_FIXNUM then d + 2 * MIN_FIXNUM else d
  {
    var unit := MAX_FIXNUM - MIN_FIXNUM + 1;
    var q := if d < MIN_FIXNUM then -1 else if d > MAX_FIXNUM then 1 else 0;
    DivModUnique(d - MIN_FIXNUM, unit, q, d - MIN_FIXNUM - q * unit);
  }

  /** The greatest fixnum minus the least comes out as -1, and compares as less. */
  lemma DifferenceWraps()
    ensures MAX_FIXNUM == 0x3fff_ffff_ffff_ffff && MIN_FIXNUM == -0x4000_0000_0000_0000 && Wrap(MAX_FIXNUM - MIN_FIXNUM) == -1
  {
    FarDifference(MAX_FIXNUM - MIN_FIXNUM);
  }

  /** Change the sign, of a bignum in place; the least fixnum wraps to itself. */
  method NegateExact(x: Num) returns (r: Num)
    requires ValidNum(x)
    modifies if x.Big? then {x.b} else {}
    ensures ValidNum(r) && (x.Big? ==> r == x) && (x.Fix? ==> r == Fix(Wrap(-(x.n as int))))
    ensures x != Fix(MIN_FIXNUM) ==> NumValue(r) == -old(NumValue(x))
  {
    hide Val;
    match x
    case Fix(n) =>
      r := Fix(Wrap(-(n as int)));
    case Big(b) =>
      Negated(b.sign, b.Mag());
      b.sign := -b.sign;
      r := x;
  }
}
