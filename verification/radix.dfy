/**
  Writing and reading integers in bases 2 to 16.

  Writing divides a copy by the base until nothing is left, filling a buffer
  from its end; reading accumulates a fixnum and hands over to a bignum when
  the next digit would not fit.
*/
module Radix {
  import opened Options
  import opened Digits
  import opened Bignums
  import opened Addition
  import opened Characters
  import Multiplication
  import opened Numerals

  predicate IsBase(base: int) { 2 <= base <= 16 }

  function HexDigit(n: nat): char
    requires n < 16
  {
    if n <= 9 then '0' + n as char else 'A' + (n - 10) as char
  }

  predicate IsHexDigit(c: char) {
    '0' <= c <= '9' || 'a' <= c <= 'f' || 'A' <= c <= 'F'
  }

  function DigitValue(c: char): nat
    requires IsHexDigit(c)
  {
    if c <= '9' then c as int - '0' as int
    else (if c <= 'F' then c as int - 'A' as int else c as int - 'a' as int) + 10
  }

  /** The digits are the ones of the notation. */
  lemma DigitStands(c: char)
    requires IsHexDigit(c)
    ensures DigitValue(c) < 16 && Stands(c, DigitValue(c))
  {
  }

  lemma StandsDigit(c: char, v: nat)
    requires Stands(c, v)
    ensures IsHexDigit(c) && DigitValue(c) == v
  {
  }

  lemma LetterOf(n: nat)
    requires n < 16
    ensures HexDigit(n) == UPPER[n]
  {
  }

  lemma DigitInverse(n: nat)
    requires n < 16
    ensures IsHexDigit(HexDigit(n)) && DigitValue(HexDigit(n)) == n
  {
  }

  // ----------------------------------------------------------------- writing

  /** The digits of a number, most significant first, none for zero. */
  function NatText(m: nat, base: nat): string
    requires IsBase(base)
  {
    if m == 0 then "" else (QuotientLess(m, base); NatText(m / base, base)) + [HexDigit(m % base)]
  }

  lemma QuotientLess(m: nat, base: nat)
    requires base >= 2 && m > 0
    ensures 0 <= m / base < m && 0 <= m % base < base && m / base * base + m % base == m
  {
    QuotientFits(m, base, m);
    assert m == m / base * base + m % base;
  }

  function Text(sign: int, m: nat, base: nat): string
    requires IsBase(base)
  {
    if m == 0 then "0" else (if sign == -1 then "-" else "") + NatText(m, base)
  }

  lemma BelowExponent(i: nat, k: nat, v: nat)
    requires Two(i) <= v < Two(k)
    ensures i < k
  {
    hide Two;
    if k <= i {
      TwoMono(k, i);
    }
  }

  /** The integer logarithm, 0 for 0. */
  method Log2(v: nat) returns (i: nat)
    requires v < Two(31)
    ensures v >= 1 ==> Two(i) <= v < Two(i + 1)
    ensures v == 0 ==> i == 0
  {
    i := 0;
    while i < 32
      invariant i <= 31 && (v >= 1 ==> Two(i) <= v) && (v == 0 ==> i == 0)
    {
      if Two(i + 1) > v {
        break;
      }
      BelowExponent(i + 1, 31, v);
      i := i + 1;
    }
  }

  datatype Written = BaseTooSmall | Written(text: string)

  /** The buffer of ceil(bits / log2 base) + 1 characters always has room, sign included. */
  method WriteBignum(a: Bignum, base: nat) returns (r: Written)
    requires a.Valid() && base <= 16
    ensures r.BaseTooSmall? <==> base < 2
    ensures r.Written? ==> r.text == Text(a.sign, a.Mag(), base)
    ensures r.Written? ==> WrittenAs(r.text, a.sign, a.Mag(), base)
  {
    hide Val;
    hide Two;
    hide NatText;
    assert Two(31) > 16 by { TwoBounds(); }
    var lgBase := Log2(base);
    var b := Copy(a, 0);
    b.sign := 1;
    if lgBase < 1 {
      assert base < 2 by { TwoBounds(); }
      return BaseTooSmall;
    }
    assert base >= 2 by { TwoBounds(); TwoMono(1, lgBase); }
    var size := (b.data.Length * 64 + lgBase - 1) / lgBase + 1;
    var data := new char[size](_ => ' ');
    ghost var m := a.Mag();
    ValBound(a.data[..]);
    var i;
    i := WriteDigits(b, base, lgBase, data, m, a.data.Length);
    TextWritten(a.sign, m, base);
    if i == size {
      i := i - 1;
      data[i] := '0';
      assert data[i..] == "0";
    } else if a.sign == -1 {
      i := i - 1;
      data[i] := '-';
      assert data[i..] == "-" + NatText(m, base);
    }
    return Written(data[i..]);
  }

  /** Fill the buffer from its end with the digits of `b`, which is used up. */
  method WriteDigits(b: Bignum, base: nat, lgBase: nat, data: array<char>, ghost m: nat, ghost len: nat) returns (i: nat)
    requires b.Valid() && b.Mag() == m < Pow(len)
    requires IsBase(base) && 1 <= lgBase && Two(lgBase) <= base && data.Length == (len * 64 + lgBase - 1) / lgBase + 1
    modifies b.data, data
    ensures 1 <= i <= data.Length && data[i..] == NatText(m, base) && (i == data.Length <==> m == 0)
    ensures Spells(data[i..], m, base)
  {
    hide Spells;
    hide Val;
    hide Two;
    hide NatText;
    hide Pow;
    var size := data.Length;
    i := size;
    assert data[i..] == "" && m * Two(0) == m by { TwoBounds(); }
    assert lgBase * (size - i) == 0;
    var zero := b.IsZero();
    while !zero
      invariant b.Valid() && 1 <= i <= size
      invariant zero <==> b.Mag() == 0
      invariant NatText(b.Mag(), base) + data[i..] == NatText(m, base)
      invariant b.Mag() * Two(lgBase * (size - i)) <= m < Pow(len)
      invariant i == size <==> b.Mag() == m
      decreases b.Mag()
    {
      RoomLeft(b.Mag(), m, lgBase, size - i, len);
      i := i - 1;
      ghost var before := b.Mag();
      assert b.data[0..] == b.data[..];
      var digit := FxDiv(b, base, 0);
      assert b.data[0..] == b.data[..];
      QuotientLess(before, base);
      data[i] := HexDigit(digit);
      DigitWritten(before, base, data[i..], data[i + 1..], NatText(m, base));
      Shrinks(before, m, base, lgBase, size - i - 1);
      zero := b.IsZero();
    }
    NoDigits(base);
    Spelled(m, base);
  }

  /** The digits written spell the number. */
  lemma {:induction false} Spelled(m: nat, base: nat)
    requires IsBase(base)
    ensures Spells(NatText(m, base), m, base)
  {
    hide Spells;
    hide NatText;
    hide HexDigit;
    NatTextStep(m, base);
    if m == 0 {
      Nothing(base);
    } else {
      Spelled(m / base, base);
      LetterOf(m % base);
      SpellsMore(NatText(m / base, base), m, base);
    }
  }

  lemma Nothing(base: nat)
    requires IsBase(base)
    ensures Spells("", 0, base)
  {
  }

  lemma TextWritten(sign: int, m: nat, base: nat)
    requires IsBase(base)
    ensures WrittenAs(Text(sign, m, base), sign, m, base)
  {
    hide Spells;
    hide NatText;
    Spelled(m, base);
    assert ("-" + NatText(m, base))[1..] == NatText(m, base);
    assert "" + NatText(m, base) == NatText(m, base);
  }

  lemma TwoBounds()
    ensures Two(0) == 1 && Two(1) == 2 && Two(5) == 32 && Two(31) > 16
  {
    TwoMono(5, 31);
  }

  lemma NoDigits(base: nat)
    requires IsBase(base)
    ensures NatText(0, base) == ""
  {
  }

  lemma DigitWritten(m: nat, base: nat, now: string, before: string, all: string)
    requires IsBase(base) && m > 0
    requires 0 <= m / base && 0 <= m % base < base
    requires now == [HexDigit(m % base)] + before && NatText(m, base) + before == all
    ensures NatText(m / base, base) + now == all
  {
  }

  /** While digits remain, fewer than ceil(bits / log2 base) have been written. */
  lemma RoomLeft(rest: nat, m: nat, lg: nat, k: nat, len: nat)
    requires rest > 0 && lg >= 1 && rest * Two(lg * k) <= m < Pow(len)
    ensures k < (len * 64 + lg - 1) / lg
  {
    hide Two;
    MulLe(Two(lg * k), 1, rest);
    Commute(Two(lg * k), rest);
    TwoPow(len);
    if lg * k >= 64 * len {
      TwoMono(64 * len, lg * k);
    }
    var c := (len * 64 + lg - 1) / lg;
    assert len * 64 + lg - 1 < (c + 1) * lg;
    if k >= c {
      MulLe(lg, c, k);
      Commute(c, lg);
      Distribute(c, 1, lg);
    }
  }

  lemma Shrinks(before: nat, m: nat, base: nat, lg: nat, k: nat)
    requires base >= Two(lg) && base >= 2 && before * Two(lg * k) <= m && before > 0
    ensures before / base * Two(lg * (k + 1)) <= m
  {
    hide Two;
    var q := before / base;
    QuotientLess(before, base);
    assert lg * (k + 1) == lg + lg * k;
    TwoAdd(lg, lg * k);
    MulLe(q, Two(lg), base);
    MulLe(Two(lg * k), q * Two(lg), before);
    MulAssoc(q, Two(lg), Two(lg * k));
    Commute(Two(lg * k), q * Two(lg));
    Commute(Two(lg * k), before);
  }

  // ----------------------------------------------------------------- reading

  function Horner(acc: nat, s: string, base: nat): nat
    requires forall i :: 0 <= i < |s| ==> IsHexDigit(s[i])
    decreases s
  {
    if s == "" then acc else Horner(acc * base + DigitValue(s[0]), s[1..], base)
  }

  /** How many characters of `s` are digits of the base. */
  function RunLength(s: string, base: nat): (k: nat)
    ensures k <= |s| && forall i :: 0 <= i < k ==> IsHexDigit(s[i])
  {
    if s == "" || !IsHexDigit(s[0]) || DigitValue(s[0]) >= base then 0 else 1 + RunLength(s[1..], base)
  }

  /** The number denoted by the first `k` digits of `s`. */
  function ValueOf(s: string, k: nat, base: nat): nat
    requires k <= RunLength(s, base)
  {
    assert forall i :: 0 <= i < k ==> s[..k][i] == s[i];
    Horner(0, s[..k], base)
  }

  lemma NoValue(s: string, base: nat)
    ensures ValueOf(s, 0, base) == 0
  {
    assert s[..0] == "";
    HornerEnd(0, base);
  }

  lemma ValueNext(s: string, k: nat, base: nat)
    requires k < RunLength(s, base)
    ensures ValueOf(s, k + 1, base) == ValueOf(s, k, base) * base + DigitValue(s[k])
  {
    HornerNext(0, s, k, base);
  }

  function Unsigned(s: string): string {
    if s != "" && (s[0] == '-' || s[0] == '+') then s[1..] else s
  }

  function Signed(negative: bool, m: int): int { if negative then -m else m }

  /** The integer at the front of `s` and what follows it; nothing if it is not an integer literal. */
  function ReadOf(s: string, base: nat): Option<(int, string)> {
    var body := Unsigned(s);
    var k := RunLength(body, base);
    if k == 0 || (k < |body| && !IsSeparator(body[k])) then None
    else Some((Signed(s[0] == '-', ValueOf(body, k, base)), body[k..]))
  }

  /** What is read when exactly `k` digits follow the sign. */
  lemma ReadEnds(s: string, start: nat, k: nat, base: nat)
    requires start + k <= |s| && Unsigned(s) == s[start..] && k == RunLength(s[start..], base)
    ensures ReadOf(s, base)
            == if k == 0 || (start + k < |s| && !IsSeparator(s[start + k])) then None
               else Some((Signed(s[0] == '-', ValueOf(s[start..], k, base)), s[start + k..]))
  {
    hide Horner;
    hide ValueOf;
    hide RunLength;
    hide IsSeparator;
    assert s[start..][k..] == s[start + k..];
    assert start + k < |s| ==> s[start..][k] == s[start + k];
  }

  /** The run goes on while there are digits. */
  lemma RunStep(s: string, pos: nat, base: nat)
    requires pos <= |s|
    ensures RunLength(s[pos..], base)
            == if pos < |s| && IsHexDigit(s[pos]) && DigitValue(s[pos]) < base then 1 + RunLength(s[pos + 1..], base) else 0
  {
    if pos < |s| {
      assert s[pos..][1..] == s[pos + 1..] && s[pos..][0] == s[pos];
    }
  }

  datatype ReadResult = Integer(n: Num, rest: string) | OtherSyntax

  /**
    Read an integer: from a numeral in the base its number and what follows,
    and from anything else nothing.
  */
  method ReadNumber(s: string, base: nat) returns (r: ReadResult)
    requires IsBase(base)
    ensures r.Integer? <==> exists l :: IsLiteral(s, l, base)
    ensures r.Integer? ==> Normal(r.n) && forall l :: IsLiteral(s, l, base) ==> NumValue(r.n) == Number(l, base) && r.rest == l.rest
    ensures r.Integer? <==> ReadOf(s, base).Some?
    ensures r.Integer? ==> ReadOf(s, base) == Some((NumValue(r.n), r.rest))
  {
    LiteralsRead(s, base);
    hide IsLiteral;
    hide Horner;
    hide ValueOf;
    hide RunLength;
    hide ReadOf;
    hide IsHexDigit;
    hide IsSeparator;
    hide DigitValue;
    hide Normal;
    hide NumValue;
    hide Unsigned;
    hide Signed;
    var negative := s != "" && s[0] == '-';
    var start := if s != "" && (s[0] == '-' || s[0] == '+') then 1 else 0;
    ghost var body := s[start..];
    BaseBounds(s, base);
    var val: int, pos := 0, start;
    NoValue(body, base);
    RunStep(s, pos, base);
    while pos < |s| && IsHexDigit(s[pos]) && DigitValue(s[pos]) < base
      invariant start <= pos <= |s| && pos - start <= RunLength(body, base)
      invariant RunLength(body, base) == pos - start + RunLength(s[pos..], base)
      invariant 0 <= val <= MAX_FIXNUM && val == ValueOf(body, pos - start, base)
    {
      RunStep(s, pos, base);
      var tmp := val * base + DigitValue(s[pos]);
      if MAX_FIXNUM / base < val || tmp < val || tmp > MAX_FIXNUM {
        r := ReadBignum(s, pos, start, val, if negative then -1 else 1, base);
        return;
      }
      ValueNext(body, pos - start, base);
      val := tmp;
      pos := pos + 1;
    }
    RunStep(s, pos, base);
    ReadEnds(s, start, pos - start, base);
    if pos == start || (pos < |s| && !IsSeparator(s[pos])) {
      return OtherSyntax;
    }
    FixnumNormal(if negative then -val else val);
    Sign(negative, val);
    return Integer(Fix(if negative then -val else val), s[pos..]);
  }

  lemma BaseBounds(s: string, base: nat)
    requires IsBase(base)
    ensures 2 <= base <= 16
    ensures Unsigned(s) == if s != "" && (s[0] == '-' || s[0] == '+') then s[1..] else s[0..]
  {
  }

  lemma Sign(negative: bool, m: int)
    ensures Signed(negative, m) == (if negative then -1 else 1) * m == if negative then -m else m
  {
  }

  lemma FixnumNormal(n: Fixnum)
    ensures Normal(Fix(n)) && NumValue(Fix(n)) == n
  {
  }

  /** Continue with a bignum from the digits read so far. */
  method ReadBignum(s: string, from: nat, start: nat, init: int, sign: int, base: nat) returns (r: ReadResult)
    requires IsBase(base) && 0 <= init <= MAX_FIXNUM && start <= from < |s| && Unsigned(s) == s[start..]
    requires sign == if s[0] == '-' then -1 else 1
    requires IsHexDigit(s[from]) && DigitValue(s[from]) < base
    requires from - start <= RunLength(s[start..], base)
    requires RunLength(s[start..], base) == from - start + RunLength(s[from..], base)
    requires init == ValueOf(s[start..], from - start, base)
    ensures r.Integer? <==> exists l :: IsLiteral(s, l, base)
    ensures r.Integer? ==> Normal(r.n) && forall l :: IsLiteral(s, l, base) ==> NumValue(r.n) == Number(l, base) && r.rest == l.rest
    ensures r.Integer? <==> ReadOf(s, base).Some?
    ensures r.Integer? ==> ReadOf(s, base) == Some((NumValue(r.n), r.rest))
  {
    LiteralsRead(s, base);
    hide IsLiteral;
    hide Val;
    hide Pow;
    hide Horner;
    hide ValueOf;
    hide RunLength;
    hide ReadOf;
    hide IsHexDigit;
    hide IsSeparator;
    hide Bignum.Value;
    hide Normal;
    RunStep(s, from, base);
    var res, pos := ReadDigits(s, from, start, init, sign, base);
    RunStep(s, pos, base);
    ReadEnds(s, start, pos - start, base);
    if pos < |s| && !IsSeparator(s[pos]) {
      return OtherSyntax;
    }
    Sign(s[0] == '-', res.Mag());
    SignedValue(res);
    var n := Normalize(res);
    return Integer(n, s[pos..]);
  }

  /** Accumulate the remaining digits in a bignum. */
  method ReadDigits(s: string, from: nat, start: nat, init: int, sign: int, base: nat) returns (res: Bignum, pos: nat)
    requires IsBase(base) && 0 <= init <= MAX_FIXNUM && start <= from <= |s| && (sign == 1 || sign == -1)
    requires from - start <= RunLength(s[start..], base)
    requires RunLength(s[start..], base) == from - start + RunLength(s[from..], base)
    requires init == ValueOf(s[start..], from - start, base)
    ensures res.Valid() && fresh(res) && fresh(res.data) && res.sign == sign
    ensures start <= pos <= |s| && RunLength(s[start..], base) == pos - start && RunLength(s[pos..], base) == 0
    ensures res.Mag() == ValueOf(s[start..], pos - start, base)
  {
    hide Val;
    hide Pow;
    hide Horner;
    hide ValueOf;
    hide RunLength;
    hide IsHexDigit;
    hide Bignum.Value;
    ghost var body := s[start..];
    res := new Bignum(2);
    res.data[0] := init;
    res.sign := sign;
    TwoWordValue(res.data[..], init);
    pos := from;
    while pos < |s| && IsHexDigit(s[pos]) && DigitValue(s[pos]) < base
      invariant from <= pos <= |s| && pos - start <= RunLength(body, base)
      invariant RunLength(body, base) == pos - start + RunLength(s[pos..], base)
      invariant res.Valid() && fresh(res) && fresh(res.data) && res.sign == sign
      invariant res.Mag() == ValueOf(body, pos - start, base)
    {
      RunStep(s, pos, base);
      res := Accumulate(res, base, DigitValue(s[pos]));
      ValueNext(body, pos - start, base);
      pos := pos + 1;
    }
    RunStep(s, pos, base);
  }

  /** Multiply by the base and add a digit. */
  method Accumulate(a: Bignum, base: Word, digit: Word) returns (r: Bignum)
    requires a.Valid()
    modifies a.data
    ensures r.Valid() && r.sign == a.sign && r.Mag() == old(a.Mag()) * base + digit
    ensures r == a || (fresh(r) && fresh(r.data))
  {
    hide Val;
    ghost var before := a.Mag();
    r := FxMul(a, a, base, 0);
    TimesOne(before * base);
    r := FxAdd(r, digit);
  }

  lemma SignedValue(res: Bignum)
    ensures res.Value() == res.sign * res.Mag()
  {
  }

  lemma TwoWordValue(s: seq<Word>, x: Word)
    requires |s| == 2 && s[0] == x && s[1] == 0
    ensures Val(s) == x
  {
    assert Val(s[1..]) == 0 by { ValZeros(s[1..]); }
  }

  lemma TimesOne(x: int)
    ensures x * Pow(0) == x
  {
  }

  lemma HornerEnd(acc: nat, base: nat)
    ensures Horner(acc, "", base) == acc
  {
  }

  /** One more digit multiplies and adds. */
  lemma {:induction false} HornerNext(acc: nat, s: string, k: nat, base: nat)
    requires k < RunLength(s, base)
    ensures Horner(acc, s[..k + 1], base) == Horner(acc, s[..k], base) * base + DigitValue(s[k])
    decreases k
  {
    if k > 0 {
      HornerNext(acc * base + DigitValue(s[0]), s[1..], k - 1, base);
      assert s[1..][..k] == s[..k + 1][1..] && s[1..][..k - 1] == s[..k][1..];
    } else {
      assert s[..1][1..] == "" && s[..0] == "";
    }
  }

  // ------------------------------------------------------- the notation is read

  /** Accumulating digits computes the positional sum. */
  lemma {:induction false} HornerSum(acc: nat, s: string, vs: seq<nat>, base: nat)
    requires Denotes(s, vs, base)
    ensures (forall i :: 0 <= i < |s| ==> IsHexDigit(s[i])) && Horner(acc, s, base) == acc * Multiplication.Exp(base, |s|) + Sum(vs, base)
    decreases |s|
  {
    hide Horner;
    hide Sum;
    hide Multiplication.Exp;
    forall i | 0 <= i < |s| ensures IsHexDigit(s[i]) { StandsDigit(s[i], vs[i]); }
    if s == "" {
      HornerEnd(acc, base);
      NoDigitsSum(acc, base);
    } else {
      StandsDigit(s[0], vs[0]);
      HornerFirst(acc, s, base);
      HornerSum(acc * base + vs[0], s[1..], vs[1..], base);
      FirstSum(acc, vs, base);
    }
  }

  lemma HornerFirst(acc: nat, s: string, base: nat)
    requires s != "" && forall i :: 0 <= i < |s| ==> IsHexDigit(s[i])
    ensures Horner(acc, s, base) == Horner(acc * base + DigitValue(s[0]), s[1..], base)
  {
  }

  lemma NoDigitsSum(acc: nat, base: nat)
    ensures acc * Multiplication.Exp(base, 0) + Sum([], base) == acc
  {
  }

  lemma FirstSum(acc: nat, vs: seq<nat>, base: nat)
    requires vs != []
    ensures (acc * base + vs[0]) * Multiplication.Exp(base, |vs| - 1) + Sum(vs[1..], base)
            == acc * Multiplication.Exp(base, |vs|) + Sum(vs, base)
  {
    hide Multiplication.Exp;
    var e := Multiplication.Exp(base, |vs| - 1);
    Multiplication.ExpNext(base, |vs| - 1);
    Distribute(acc * base, vs[0], e);
    MulAssoc(acc, base, e);
  }

  lemma {:induction false} RunDenotes(s: string, vs: seq<nat>, base: nat)
    requires Denotes(s, vs, base)
    ensures RunLength(s, base) == |s|
    decreases |s|
  {
    if s != "" {
      StandsDigit(s[0], vs[0]);
      RunDenotes(s[1..], vs[1..], base);
    }
  }

  /** Any numeral is read: an optional sign, digits in either case, and what ends them. */
  lemma {:induction false} LiteralIsRead(s: string, l: Numeral, base: nat)
    requires IsLiteral(s, l, base)
    ensures ReadOf(s, base) == Some((Number(l, base), l.rest))
  {
    hide Horner;
    hide RunLength;
    hide ReadOf;
    hide IsSeparator;
    hide Denotes;
    hide Sum;
    RunDenotes(l.digits, l.values, base);
    DigitsRead(l.sign, l.digits, l.rest, base);
    HornerSum(0, l.digits, l.values, base);
  }

  /** Only numerals are read. */
  lemma {:induction false} ReadIsLiteral(s: string, base: nat) returns (l: Numeral)
    requires ReadOf(s, base).Some?
    ensures IsLiteral(s, l, base)
  {
    hide IsSeparator;
    hide RunLength;
    hide Denotes;
    hide ReadOf;
    hide Unsigned;
    var body := Unsigned(s);
    var k := RunLength(body, base);
    ReadParts(s, base);
    var values := RunValues(body, k, base);
    var sign := s[..|s| - |body|];
    l := Numeral(sign, body[..k], values, body[k..]);
    SignParts(s, sign, body, k);
  }

  lemma ReadParts(s: string, base: nat)
    requires ReadOf(s, base).Some?
    ensures var body := Unsigned(s);
            var k := RunLength(body, base);
            |body| <= |s| && 0 < k <= |body| && body[..k] != "" && (body[k..] == "" || IsSeparator(body[k..][0]))
  {
    hide IsSeparator;
    hide RunLength;
    hide ValueOf;
  }

  lemma SignParts(s: string, sign: string, body: string, k: nat)
    requires body == Unsigned(s) && |body| <= |s| && sign == s[..|s| - |body|] && k <= |body|
    ensures sign in {"", "+", "-"} && s == sign + body[..k] + body[k..]
  {
    if |body| == |s| {
      assert sign == "" && s == sign + (body[..k] + body[k..]);
    } else {
      assert sign == [s[0]] && s == sign + (body[..k] + body[k..]);
    }
    assert sign + (body[..k] + body[k..]) == sign + body[..k] + body[k..];
  }

  lemma {:induction false} RunValues(s: string, k: nat, base: nat) returns (values: seq<nat>)
    requires k <= RunLength(s, base)
    ensures Denotes(s[..k], values, base)
  {
    hide Stands;
    hide DigitValue;
    hide RunLength;
    RunDigits(s, base);
    values := seq(k, i requires 0 <= i < k => DigitValue(s[i]));
    forall i | 0 <= i < k ensures values[i] < base && Stands(s[..k][i], values[i]) { DigitStands(s[i]); }
  }

  /** The integers read are those of numerals. */
  lemma LiteralsRead(s: string, base: nat)
    ensures ReadOf(s, base).Some? <==> exists l :: IsLiteral(s, l, base)
    ensures forall l :: IsLiteral(s, l, base) ==> ReadOf(s, base) == Some((Number(l, base), l.rest))
  {
    hide IsLiteral;
    hide ReadOf;
    if ReadOf(s, base).Some? {
      var l := ReadIsLiteral(s, base);
    }
    forall l | IsLiteral(s, l, base) ensures ReadOf(s, base) == Some((Number(l, base), l.rest)) { LiteralIsRead(s, l, base); }
  }

  lemma {:induction false} RunDigits(s: string, base: nat)
    ensures forall i :: 0 <= i < RunLength(s, base) ==> DigitValue(s[i]) < base
    decreases |s|
  {
    if RunLength(s, base) > 0 {
      RunDigits(s[1..], base);
      forall i | 0 <= i < RunLength(s, base) ensures DigitValue(s[i]) < base {
        assert i > 0 ==> s[i] == s[1..][i - 1];
      }
    }
  }

  /** A plus sign changes nothing, and neither does the case of the digits. */
  lemma SameNumber(s: string, l: Numeral, s1: string, l1: Numeral, base: nat)
    requires IsLiteral(s, l, base) && IsLiteral(s1, l1, base) && l1.values == l.values && l1.rest == l.rest
    requires l.sign == "-" <==> l1.sign == "-"
    ensures ReadOf(s1, base) == ReadOf(s, base)
  {
    hide ReadOf;
    LiteralIsRead(s, l, base);
    LiteralIsRead(s1, l1, base);
  }

  // -------------------------------------------------------------- round trip

  lemma {:induction false} RunAppend(s: string, t: string, base: nat)
    requires RunLength(s, base) == |s|
    ensures RunLength(s + t, base) == |s| + RunLength(t, base)
  {
    if s == "" {
      assert s + t == t;
    } else {
      RunAppend(s[1..], t, base);
      assert (s + t)[1..] == s[1..] + t;
    }
  }

  /** Every character written is a digit, and the digits denote the number. */
  lemma {:induction false} DigitsReadBack(m: nat, base: nat)
    requires IsBase(base)
    ensures RunLength(NatText(m, base), base) == |NatText(m, base)| && (m > 0 ==> NatText(m, base) != "")
    ensures Horner(0, NatText(m, base), base) == m
  {
    hide Horner;
    hide RunLength;
    hide NatText;
    NatTextStep(m, base);
    if m == 0 {
      HornerEnd(0, base);
      NoRun("", base);
    } else {
      DigitsReadBack(m / base, base);
      LastDigit(NatText(m / base, base), m / base, m % base, base);
    }
  }

  lemma {:induction false} NatTextStep(m: nat, base: nat)
    requires IsBase(base)
    ensures m == 0 ==> NatText(m, base) == ""
    ensures m > 0 ==> NatText(m, base) == NatText(m / base, base) + [HexDigit(m % base)]
    ensures m > 0 ==> m / base < m && m == m / base * base + m % base
  {
    if m > 0 {
      QuotientLess(m, base);
    }
  }

  lemma LastDigit(init: string, q: nat, d: nat, base: nat)
    requires IsBase(base) && d < base && RunLength(init, base) == |init| && Horner(0, init, base) == q
    ensures var s := init + [HexDigit(d)];
            RunLength(s, base) == |s| && Horner(0, s, base) == q * base + d
  {
    hide Horner;
    var s := init + [HexDigit(d)];
    DigitInverse(d);
    assert [HexDigit(d)][1..] == "";
    RunAppend(init, [HexDigit(d)], base);
    HornerNext(0, s, |init|, base);
    assert s[..|init|] == init && s[..|init| + 1] == s;
  }

  /** Reading what was written gives back sign and value, and stops where the text ends. */
  lemma RoundTrip(sign: int, m: nat, base: nat, rest: string)
    requires IsBase(base) && (sign == 1 || sign == -1) && (rest == "" || IsSeparator(rest[0]))
    ensures ReadOf(Text(sign, m, base) + rest, base) == Some((sign * m, rest))
  {
    hide Horner;
    hide RunLength;
    hide NatText;
    hide ReadOf;
    hide IsSeparator;
    DigitsReadBack(m, base);
    ZeroDigit(base);
    if m == 0 {
      assert Text(sign, m, base) == "" + "0";
      DigitsRead("", "0", rest, base);
    } else {
      var minus := if sign == -1 then "-" else "";
      DigitsRead(minus, NatText(m, base), rest, base);
    }
  }

  /** A run of digits is read after an optional sign, up to what ends it. */
  lemma {:induction false} DigitsRead(sign: string, digits: string, rest: string, base: nat)
    requires sign in {"", "+", "-"} && digits != "" && RunLength(digits, base) == |digits|
    requires rest == "" || IsSeparator(rest[0])
    ensures ReadOf(sign + digits + rest, base) == Some((Signed(sign == "-", Horner(0, digits, base)), rest))
  {
    hide Horner;
    hide RunLength;
    hide ReadOf;
    hide IsSeparator;
    NoRun(rest, base);
    RunAppend(digits, rest, base);
    var s, body := sign + digits + rest, digits + rest;
    FirstIsDigit(body, base);
    assert s == sign + body;
    assert s[|sign|..] == body == Unsigned(s);
    ReadEnds(s, |sign|, |digits|, base);
    assert body[..|digits|] == digits && s[|sign| + |digits|..] == rest;
  }

  lemma ZeroDigit(base: nat)
    requires IsBase(base)
    ensures RunLength("0", base) == 1 && Horner(0, "0", base) == 0
  {
    assert "0"[1..] == "";
    HornerEnd(0, base);
  }

  lemma NoRun(rest: string, base: nat)
    requires rest == "" || IsSeparator(rest[0])
    ensures RunLength(rest, base) == 0
  {
  }

  lemma FirstIsDigit(s: string, base: nat)
    requires RunLength(s, base) > 0
    ensures s != "" && s[0] != '-' && s[0] != '+'
  {
  }
}
