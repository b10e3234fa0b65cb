/**
  Subtraction with the minuend as its own destination.

  A column that borrows stores the complement of the subtrahend's word and then
  adds the minuend's word, which by then is that complement.  So the column is
  doubled, and the difference is right only if every such column happens to be
  twice the complement.
*/
module Aliasing {
  import opened Digits
  import opened Bignums
  import Addition

  /** The subtrahend's word in column `i`. */
  function Lower(t: seq<Word>, n: nat, i: nat): Word
    requires n <= |t|
  {
    if i < n then t[i] else 0
  }

  /** What is borrowed from column `i`. */
  function Borrow(s: seq<Word>, t: seq<Word>, n: nat, i: nat): (borrow: Word)
    requires n <= |t| && i <= |s|
    ensures borrow <= 1
  {
    if i == 0 then 0
    else
      var x, y := s[i - 1], Lower(t, n, i - 1);
      if x > y || (x == y && Borrow(s, t, n, i - 1) == 0) then 0 else 1
  }

  function Column(x: Word, y: Word, borrow: Word, doubled: bool): Word
    requires borrow <= 1
  {
    if x > y || (x == y && borrow == 0) then x - y - borrow
    else Low(Low(Low(BASE - 1 - y + 1) - borrow) + if doubled then Low(Low(BASE - 1 - y + 1) - borrow) else x)
  }

  /** The words stored: `n` is the length of the subtrahend, `inPlace` whether the minuend is overwritten. */
  function Stored(s: seq<Word>, t: seq<Word>, n: nat, inPlace: bool): (c: seq<Word>)
    requires n <= |t|
    ensures |c| == |s|
  {
    seq(|s|, i requires 0 <= i < |s| => Column(s[i], Lower(t, n, i), Borrow(s, t, n, i), inPlace && i < n))
  }

  /** The subtrahend, as long as the minuend. */
  function Padded(t: seq<Word>, n: nat, len: nat): (u: seq<Word>)
    requires n <= |t|
    ensures |u| == len
  {
    seq(len, i requires 0 <= i < len => Lower(t, n, i))
  }

  /** In every column of the subtrahend that borrows, the words and the borrow add up to the base. */
  predicate Harmless(s: seq<Word>, t: seq<Word>, n: nat)
    requires n <= |t| && n <= |s|
  {
    forall i :: 0 <= i < n ==> HarmlessAt(s, t, n, i)
  }

  predicate HarmlessAt(s: seq<Word>, t: seq<Word>, n: nat, i: nat)
    requires i < n <= |t| && n <= |s|
  {
    Borrow(s, t, n, i + 1) == 1 ==> s[i] as int + t[i] + Borrow(s, t, n, i) == BASE
  }

  // --------------------------------------------------------------- one column

  lemma ColumnExact(x: Word, y: Word, borrow: Word)
    requires borrow <= 1
    ensures Column(x, y, borrow, false) as int + y + borrow == x + if x > y || (x == y && borrow == 0) then 0 else BASE
  {
    if x < y || (x == y && borrow == 1) {
      Addition.WrappedDifference(x, y, borrow);
    }
  }

  /** Doubling makes no difference exactly when the complement is the minuend's word. */
  lemma ColumnDoubled(x: Word, y: Word, borrow: Word)
    requires borrow <= 1
    ensures Column(x, y, borrow, true) == Column(x, y, borrow, false)
            <==> x > y || (x == y && borrow == 0) || x as int + y + borrow == BASE
  {
    if x < y || (x == y && borrow == 1) {
      Addition.WrappedDifference(x, y, borrow);
    }
  }

  // --------------------------------------------------------------- all columns

  lemma {:induction false} ExactSoFar(s: seq<Word>, t: seq<Word>, n: nat, k: nat)
    requires n <= |t| && k <= |s|
    ensures Val(Stored(s, t, n, false)[..k]) + Val(Padded(t, n, |s|)[..k]) == Val(s[..k]) + Borrow(s, t, n, k) * Pow(k)
  {
    hide Val;
    hide Column;
    hide Lower;
    var c, u := Stored(s, t, n, false), Padded(t, n, |s|);
    if k == 0 {
      EmptyVal();
      assert c[..0] == u[..0] == s[..0] == [];
      assert Borrow(s, t, n, 0) == 0;
    } else {
      var i := k - 1;
      ExactSoFar(s, t, n, i);
      ValTake(c, i);
      ValTake(u, i);
      ValTake(s, i);
      ColumnExact(s[i], u[i], Borrow(s, t, n, i));
      BorrowStep(Val(c[..i]), Val(s[..i]), Val(u[..i]), Pow(i), c[i], s[i], u[i], Borrow(s, t, n, i), Borrow(s, t, n, k));
    }
  }

  lemma PaddedValue(t: seq<Word>, n: nat, len: nat)
    requires n <= |t| && n <= len && Zeros(t[n..])
    ensures Val(Padded(t, n, len)) == Val(t)
  {
    hide Val;
    var u := Padded(t, n, len);
    assert u[..n] == t[..n];
    ValPad(u, n);
    ValPad(t, n);
  }

  /** Without aliasing the stored words are the difference, and nothing is borrowed beyond the minuend. */
  lemma ExactDifference(s: seq<Word>, t: seq<Word>, n: nat, len: nat)
    requires n <= |t| && n <= len <= |s| && Zeros(t[n..]) && Zeros(s[len..]) && Val(t) <= Val(s)
    ensures Val(Stored(s, t, n, false)) == Val(s) - Val(t)
    ensures Borrow(s, t, n, len) == 0
  {
    hide Val;
    hide Pow;
    hide Borrow;
    var c, u := Stored(s, t, n, false), Padded(t, n, |s|);
    ExactSoFar(s, t, n, |s|);
    assert c[..|s|] == c && u[..|s|] == u && s[..|s|] == s;
    PaddedValue(t, n, |s|);
    ValBound(c);
    ExactSoFar(s, t, n, len);
    ValPad(s, len);
    assert u[..len] == Padded(t, n, len);
    PaddedValue(t, n, len);
    ValBound(c[..len]);
    assert |c[..len]| == len;
  }

  /** Overwriting the minuend gives the difference exactly when every borrow is harmless. */
  lemma InPlaceExact(s: seq<Word>, t: seq<Word>, n: nat, len: nat)
    requires n <= |t| && n <= len <= |s| && Zeros(t[n..]) && Zeros(s[len..]) && Val(t) <= Val(s)
    ensures Val(Stored(s, t, n, true)) == Val(s) - Val(t) <==> Harmless(s, t, n)
  {
    hide Val;
    hide Stored;
    hide Borrow;
    hide HarmlessAt;
    var c, e := Stored(s, t, n, true), Stored(s, t, n, false);
    ExactDifference(s, t, n, len);
    forall i | 0 <= i < |s|
      ensures c[i] == e[i] <==> i >= n || HarmlessAt(s, t, n, i)
    {
      ColumnsAgree(s, t, n, i);
    }
    if Harmless(s, t, n) {
      assert c == e;
    } else if Val(c) == Val(e) {
      ValInjective(c, e);
      assert false;
    }
  }

  lemma ColumnsAgree(s: seq<Word>, t: seq<Word>, n: nat, i: nat)
    requires n <= |t| && n <= |s| && i < |s|
    ensures Stored(s, t, n, true)[i] == Stored(s, t, n, false)[i]
            <==> i >= n || HarmlessAt(s, t, n, i)
  {
    hide Column;
    ColumnDoubled(s[i], Lower(t, n, i), Borrow(s, t, n, i));
  }

  /** The smallest failure: BASE - 1 comes out as BASE - 2. */
  lemma DoubledBorrow()
    ensures Stored([0, 1], [1], 1, true) == [BASE - 2, 0] && Stored([0, 1], [1], 1, false) == [BASE - 1, 0]
  {
    var s: seq<Word>, t: seq<Word> := [0, 1], [1];
    assert Borrow(s, t, 1, 0) == 0 && Borrow(s, t, 1, 1) == 1;
  }

  // ------------------------------------------------------------------- loops

  ghost predicate DoneUpTo(d: seq<Word>, s: seq<Word>, t: seq<Word>, n: nat, i: nat)
    requires n <= |t|
  {
    && |d| == |s| && i <= |s|
    && (forall j :: 0 <= j < i ==> d[j] == Stored(s, t, n, true)[j])
    && (forall j :: i <= j < |s| ==> d[j] == s[j])
  }

  lemma ColumnDone(d: seq<Word>, d1: seq<Word>, s: seq<Word>, t: seq<Word>, n: nat, i: nat)
    requires n <= |t| && i < |s| && DoneUpTo(d, s, t, n, i)
    requires d1 == d[i := Column(s[i], Lower(t, n, i), Borrow(s, t, n, i), i < n)]
    ensures DoneUpTo(d1, s, t, n, i + 1)
  {
  }

  /** Once nothing is borrowed the minuend's words stay. */
  lemma {:induction false} NoMoreBorrows(d: seq<Word>, s: seq<Word>, t: seq<Word>, n: nat, i: nat)
    requires n <= |t| && n <= i <= |s| && DoneUpTo(d, s, t, n, i) && Borrow(s, t, n, i) == 0
    ensures d == Stored(s, t, n, true)
    decreases |s| - i
  {
    if i < |s| {
      assert d[i := s[i]] == d;
      ColumnDone(d, d, s, t, n, i);
      NoMoreBorrows(d, s, t, n, i + 1);
    }
  }

  /** The loops of the original with the minuend as destination. */
  method SubInPlace(a: Bignum, b: Bignum)
    requires a.Valid() && b.Valid() && Apart(a, b) && b.Mag() <= a.Mag()
    modifies a.data
    ensures a.data[..] == Stored(old(a.data[..]), b.data[..], HiOf(b.data[..]), true)
    ensures HiOf(b.data[..]) <= a.data.Length
    ensures a.Mag() == old(a.Mag()) - b.Mag() <==> Harmless(old(a.data[..]), b.data[..], HiOf(b.data[..]))
  {
    hide Val;
    hide HiOf;
    hide Stored;
    hide Borrow;
    hide DoneUpTo;
    hide Harmless;
    var alen := a.Hi();
    var blen := b.Hi();
    ghost var s, t := a.data[..], b.data[..];
    if alen < blen {
      HiOrders(s, alen, t, blen);
    }
    ExactDifference(s, t, blen, alen);
    InPlaceExact(s, t, blen, alen);
    var borrow: Word, i := 0, 0;
    NothingDone(s, t, blen);
    while i < blen
      invariant 0 <= i <= blen && borrow == Borrow(s, t, blen, i) && DoneUpTo(a.data[..], s, t, blen, i)
    {
      borrow := SubColumn(a, b, blen, i, borrow, s);
      i := i + 1;
    }
    while borrow > 0 && i < alen
      invariant blen <= i <= alen && borrow == Borrow(s, t, blen, i) && DoneUpTo(a.data[..], s, t, blen, i)
    {
      borrow := DecrementColumn(a, t, blen, i, s);
      i := i + 1;
    }
    NoMoreBorrows(a.data[..], s, t, blen, i);
  }

  lemma NothingDone(s: seq<Word>, t: seq<Word>, n: nat)
    requires n <= |t|
    ensures DoneUpTo(s, s, t, n, 0) && Borrow(s, t, n, 0) == 0
  {
  }

  method SubColumn(a: Bignum, b: Bignum, n: nat, i: nat, borrow: Word, ghost s: seq<Word>) returns (next: Word)
    requires a.Valid() && Apart(a, b) && i < n <= b.data.Length && i < a.data.Length
    requires DoneUpTo(a.data[..], s, b.data[..], n, i) && borrow == Borrow(s, b.data[..], n, i)
    modifies a.data
    ensures next == Borrow(s, b.data[..], n, i + 1) && DoneUpTo(a.data[..], s, b.data[..], n, i + 1)
  {
    hide Stored;
    ghost var d, t := a.data[..], b.data[..];
    var y := b.data[i];
    assert a.data[i] == d[i] == s[i] && Lower(t, n, i) == y;
    if a.data[i] > y || (a.data[i] == y && borrow == 0) {
      a.data[i] := a.data[i] - y - borrow;
      next := 0;
    } else {
      a.data[i] := BASE - 1 - y;
      a.data[i] := Low(a.data[i] as int + 1);
      a.data[i] := Low(a.data[i] as int - borrow);
      a.data[i] := Low(a.data[i] as int + a.data[i]);
      next := 1;
    }
    ColumnDone(d, a.data[..], s, t, n, i);
  }

  method DecrementColumn(a: Bignum, ghost t: seq<Word>, n: nat, i: nat, ghost s: seq<Word>) returns (next: Word)
    requires a.Valid() && n <= |t| && n <= i < a.data.Length
    requires DoneUpTo(a.data[..], s, t, n, i) && Borrow(s, t, n, i) == 1
    modifies a.data
    ensures next == Borrow(s, t, n, i + 1) && DoneUpTo(a.data[..], s, t, n, i + 1)
  {
    hide Stored;
    ghost var d := a.data[..];
    assert a.data[i] == d[i] == s[i] && Lower(t, n, i) == 0;
    next := if a.data[i] == 0 then 1 else 0;
    Decremented(a.data[i]);
    a.data[i] := Low(a.data[i] as int - 1);
    ColumnDone(d, a.data[..], s, t, n, i);
  }

  lemma Decremented(x: Word)
    ensures Column(x, 0, 1, false) == Low(x as int - 1)
  {
    if x == 0 {
      Addition.WrappedDifference(0, 0, 1);
    }
  }
}
