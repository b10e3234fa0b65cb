/**
  Positional notation: what a row of digits denotes, and how a number is
  spelled, told by the places of the characters in two strings.
*/
module Numerals {
  import opened Digits
  import Characters
  import opened Multiplication

  const UPPER := "0123456789ABCDEF"
  const LOWER := "0123456789abcdef"

  // ----------------------------------------------------------------- reading

  /** The character is the digit `v`, in either case. */
  predicate Stands(c: char, v: nat) { v < 16 && (c == UPPER[v] || c == LOWER[v]) }

  /** The characters are digits of the base, with these values. */
  predicate Denotes(s: string, vs: seq<nat>, base: nat) {
    |vs| == |s| && forall i :: 0 <= i < |s| ==> vs[i] < base && Stands(s[i], vs[i])
  }

  /** The sum of value times power of the base. */
  function Sum(vs: seq<nat>, base: nat): int {
    if vs == [] then 0 else vs[0] * Exp(base, |vs| - 1) + Sum(vs[1..], base)
  }

  /** A sign or none, digits with their values, and what follows. */
  datatype Numeral = Numeral(sign: string, digits: string, values: seq<nat>, rest: string)

  /** `s` begins with the numeral, and a separator or the end comes after it. */
  ghost predicate IsLiteral(s: string, l: Numeral, base: nat) {
    && l.sign in {"", "+", "-"} && l.digits != "" && Denotes(l.digits, l.values, base)
    && s == l.sign + l.digits + l.rest && (l.rest == "" || Characters.IsSeparator(l.rest[0]))
  }

  function Number(l: Numeral, base: nat): int { (if l.sign == "-" then -1 else 1) * Sum(l.values, base) }

  // ----------------------------------------------------------------- writing

  /** The digit with weight base^k. */
  function Digit(m: nat, base: nat, k: nat): (d: int)
    requires base >= 2
    ensures 0 <= d < base
  {
    PowerPositive(base, k);
    m / Exp(base, k) % base
  }

  lemma {:induction false} PowerPositive(base: nat, k: nat)
    requires base >= 1
    ensures Exp(base, k) >= 1
    decreases k
  {
    if k > 0 {
      PowerPositive(base, k - 1);
      MulLe(base, 1, Exp(base, k - 1));
    }
  }

  /** The digits of `m`, the most significant first and not zero, and none left out. */
  ghost predicate Spells(text: string, m: nat, base: nat)
    requires 2 <= base <= 16
  {
    && m < Exp(base, |text|) && (text != "" ==> text[0] != '0')
    && forall i :: 0 <= i < |text| ==> text[i] == UPPER[Digit(m, base, |text| - 1 - i)]
  }

  /** A minus sign before the digits of a negative number; zero is a digit of its own. */
  ghost predicate WrittenAs(text: string, sign: int, m: nat, base: nat)
    requires 2 <= base <= 16
  {
    if m == 0 then text == "0"
    else if sign == -1 then text != "" && text[0] == '-' && Spells(text[1..], m, base)
    else Spells(text, m, base)
  }

  lemma DivideTwice(m: nat, b: nat, e: nat)
    requires b >= 1 && e >= 1
    ensures b * e >= 1 && m / (b * e) == m / b / e
  {
    var q, r := m / b, m % b;
    var q1, r1 := q / e, q % e;
    assert q == q1 * e + r1 && m == q * b + r;
    Composed(m, b, e, q, r, q1, r1);
    DivModUnique(m, b * e, q1, r1 * b + r);
  }

  lemma Composed(m: nat, b: nat, e: nat, q: nat, r: nat, q1: nat, r1: nat)
    requires m == q * b + r && q == q1 * e + r1 && r < b && r1 < e
    ensures m == q1 * (b * e) + (r1 * b + r) && 0 <= r1 * b + r < b * e && b * e >= 1
  {
    Distribute(q1 * e, r1, b);
    MulAssoc(q1, e, b);
    Commute(e, b);
    MulLe(b, r1 + 1, e);
    Commute(b, r1 + 1);
    Distribute(r1, 1, b);
  }

  /** Dividing by the base shifts the digits down. */
  lemma DigitUp(m: nat, base: nat, k: nat)
    requires base >= 2
    ensures m / base >= 0 && Digit(m, base, k + 1) == Digit(m / base, base, k)
  {
    PowerPositive(base, k);
    DivideTwice(m, base, Exp(base, k));
  }

  lemma LowestDigit(m: nat, base: nat)
    requires base >= 2
    ensures Digit(m, base, 0) == m % base
  {
    assert Exp(base, 0) == 1 && m / 1 == m;
  }

  /** One more digit at the end. */
  lemma {:induction false} SpellsMore(text: string, m: nat, base: nat)
    requires 2 <= base <= 16 && m > 0 && m / base >= 0 && Spells(text, m / base, base)
    ensures 0 <= m % base < base && Spells(text + [UPPER[m % base]], m, base)
  {
    hide Digit;
    hide Exp;
    var q, d, n := m / base, m % base, |text|;
    var all := text + [UPPER[d]];
    assert m == q * base + d;
    ExpNext(base, n);
    MulLe(base, q + 1, Exp(base, n));
    Commute(q + 1, base);
    Distribute(q, 1, base);
    LowestDigit(m, base);
    forall i | 0 <= i < |all|
      ensures all[i] == UPPER[Digit(m, base, |all| - 1 - i)]
    {
      if i < n {
        DigitUp(m, base, n - 1 - i);
      }
    }
    if text == "" {
      ExpNext(base, 0);
      assert q < 1;
      FirstNotZero(d);
    }
  }

  lemma FirstNotZero(d: int)
    requires 0 < d < 16
    ensures UPPER[d] != '0'
  {
  }
}
