/**
  Short symbols packed into an immediate word with a Huffman code, and the
  decoder that unpacks them when they are printed.
*/
module Huffman {
  import opened Options
  import opened Digits
  import Characters

  // ------------------------------------------------------------------- tables

  const TAB1: seq<nat> := [0, 0, 0, 114, 0, 0, 0, 97]
  const TAB2: seq<nat> := [101, 116]
  const TAB3: seq<nat> := [110, 45]
  const TAB4: seq<nat> := [99, 105]
  const TAB5: seq<nat> := [0, 111, 0, 100]
  const TAB6: seq<nat> := [104, 109]
  const TAB7: seq<nat> := [102, 62, 61, 118]
  const TAB8: seq<nat> := [112, 63, 103, 117]
  const TAB9: seq<nat> := [0, 115, 0, 108]
  const TAB10: seq<nat> := [121, 119, 60, 113]
  const TAB11: seq<nat> := [0, 98, 0, 120]
  const TAB12: seq<nat> := [33, 107]
  const TAB13: seq<nat> := [0, 0, 0, 43, 0, 0, 0, 47]
  const TAB14: seq<nat> := [42, 122]
  const TAB15: seq<nat> := [70, 78, 74, 82, 72, 80, 76, 84, 71, 79, 75, 83, 73, 81, 77, 85]
  const TAB16: seq<nat> := [86, 94, 90, 124, 88, 96, 92, 126, 87, 95, 91, 125, 89, 123, 93, 127]
  const TAB17: seq<nat> := [13, 29, 21, 38, 17, 34, 25, 44, 15, 31, 23, 40, 19, 36, 27, 48, 14, 30, 22, 39, 18, 35, 26, 46, 16, 32, 24, 41, 20, 37, 28, 49]
  const TAB18: seq<nat> := [50, 58, 54, 66, 52, 64, 56, 68, 51, 59, 55, 67, 53, 65, 57, 69]
  const TAB19: seq<nat> := [1, 106, 1, 0]
  const TAB20: seq<nat> := [5, 9, 7, 11, 6, 10, 8, 12]
  const TAB21: seq<nat> := [1, 0, 3, 0, 2, 0, 4, 0]

  datatype Entry = Entry(len: nat, bits: nat)

  /** The code of each character, written from the lowest bit up; the table ends at 127. */
  function HuffTable(c: nat): Entry {
    match c
    case 0 => Entry(12, 0x0C00)
    case 1 => Entry(15, 0x0000)
    case 2 => Entry(15, 0x4000)
    case 3 => Entry(15, 0x2000)
    case 4 => Entry(15, 0x6000)
    case 5 => Entry(15, 0x0800)
    case 6 => Entry(15, 0x4800)
    case 7 => Entry(15, 0x2800)
    case 8 => Entry(15, 0x6800)
    case 9 => Entry(15, 0x1800)
    case 10 => Entry(15, 0x5800)
    case 11 => Entry(15, 0x3800)
    case 12 => Entry(15, 0x7800)
    case 13 => Entry(15, 0x0100)
    case 14 => Entry(15, 0x4100)
    case 15 => Entry(15, 0x2100)
    case 16 => Entry(15, 0x6100)
    case 17 => Entry(15, 0x1100)
    case 18 => Entry(15, 0x5100)
    case 19 => Entry(15, 0x3100)
    case 20 => Entry(15, 0x7100)
    case 21 => Entry(15, 0x0900)
    case 22 => Entry(15, 0x4900)
    case 23 => Entry(15, 0x2900)
    case 24 => Entry(15, 0x6900)
    case 25 => Entry(15, 0x1900)
    case 26 => Entry(15, 0x5900)
    case 27 => Entry(15, 0x3900)
    case 28 => Entry(15, 0x7900)
    case 29 => Entry(15, 0x0500)
    case 30 => Entry(15, 0x4500)
    case 31 => Entry(15, 0x2500)
    case 32 => Entry(15, 0x6500)
    case 33 => Entry(8, 0x0040)
    case 34 => Entry(15, 0x1500)
    case 35 => Entry(15, 0x5500)
    case 36 => Entry(15, 0x3500)
    case 37 => Entry(15, 0x7500)
    case 38 => Entry(15, 0x0D00)
    case 39 => Entry(15, 0x4D00)
    case 40 => Entry(15, 0x2D00)
    case 41 => Entry(15, 0x6D00)
    case 42 => Entry(11, 0x0300)
    case 43 => Entry(10, 0x0180)
    case 44 => Entry(15, 0x1D00)
    case 45 => Entry(4, 0x000D)
    case 46 => Entry(15, 0x5D00)
    case 47 => Entry(10, 0x0380)
    case 48 => Entry(15, 0x3D00)
    case 49 => Entry(15, 0x7D00)
    case 50 => Entry(14, 0x0080)
    case 51 => Entry(14, 0x2080)
    case 52 => Entry(14, 0x1080)
    case 53 => Entry(14, 0x3080)
    case 54 => Entry(14, 0x0880)
    case 55 => Entry(14, 0x2880)
    case 56 => Entry(14, 0x1880)
    case 57 => Entry(14, 0x3880)
    case 58 => Entry(14, 0x0480)
    case 59 => Entry(14, 0x2480)
    case 60 => Entry(7, 0x0050)
    case 61 => Entry(7, 0x0042)
    case 62 => Entry(7, 0x0022)
    case 63 => Entry(5, 0x0009)
    case 64 => Entry(14, 0x1480)
    case 65 => Entry(14, 0x3480)
    case 66 => Entry(14, 0x0C80)
    case 67 => Entry(14, 0x2C80)
    case 68 => Entry(14, 0x1C80)
    case 69 => Entry(14, 0x3C80)
    case 70 => Entry(14, 0x0280)
    case 71 => Entry(14, 0x2280)
    case 72 => Entry(14, 0x1280)
    case 73 => Entry(14, 0x3280)
    case 74 => Entry(14, 0x0A80)
    case 75 => Entry(14, 0x2A80)
    case 76 => Entry(14, 0x1A80)
    case 77 => Entry(14, 0x3A80)
    case 78 => Entry(14, 0x0680)
    case 79 => Entry(14, 0x2680)
    case 80 => Entry(14, 0x1680)
    case 81 => Entry(14, 0x3680)
    case 82 => Entry(14, 0x0E80)
    case 83 => Entry(14, 0x2E80)
    case 84 => Entry(14, 0x1E80)
    case 85 => Entry(14, 0x3E80)
    case 86 => Entry(14, 0x0200)
    case 87 => Entry(14, 0x2200)
    case 88 => Entry(14, 0x1200)
    case 89 => Entry(14, 0x3200)
    case 90 => Entry(14, 0x0A00)
    case 91 => Entry(14, 0x2A00)
    case 92 => Entry(14, 0x1A00)
    case 93 => Entry(14, 0x3A00)
    case 94 => Entry(14, 0x0600)
    case 95 => Entry(14, 0x2600)
    case 96 => Entry(14, 0x1600)
    case 97 => Entry(3, 0x0007)
    case 98 => Entry(7, 0x0020)
    case 99 => Entry(4, 0x0004)
    case 100 => Entry(5, 0x001A)
    case 101 => Entry(4, 0x0006)
    case 102 => Entry(7, 0x0002)
    case 103 => Entry(5, 0x0011)
    case 104 => Entry(6, 0x0012)
    case 105 => Entry(4, 0x000C)
    case 106 => Entry(12, 0x0400)
    case 107 => Entry(8, 0x00C0)
    case 108 => Entry(5, 0x0018)
    case 109 => Entry(6, 0x0032)
    case 110 => Entry(4, 0x0005)
    case 111 => Entry(5, 0x000A)
    case 112 => Entry(5, 0x0001)
    case 113 => Entry(7, 0x0070)
    case 114 => Entry(3, 0x0003)
    case 115 => Entry(5, 0x0008)
    case 116 => Entry(4, 0x000E)
    case 117 => Entry(5, 0x0019)
    case 118 => Entry(7, 0x0062)
    case 119 => Entry(7, 0x0030)
    case 120 => Entry(7, 0x0060)
    case 121 => Entry(7, 0x0010)
    case 122 => Entry(11, 0x0700)
    case 123 => Entry(14, 0x3600)
    case 124 => Entry(14, 0x0E00)
    case 125 => Entry(14, 0x2E00)
    case 126 => Entry(14, 0x1E00)
    case _ => Entry(14, 0x3E00)
  }

  // --------------------------------------------------------------- code trees

  /** Read `k` bits and continue with the chosen subtree, down to a character. */
  datatype Tree = Leaf(c: nat) | Read(k: nat, next: seq<Tree>)

  function Leaves(k: nat, tab: seq<nat>): Tree { Read(k, seq(|tab|, i requires 0 <= i < |tab| => Leaf(tab[i]))) }

  ghost predicate WellFormed(t: Tree) {
    t.Read? ==> t.k >= 1 && |t.next| == Two(t.k) && forall u <- t.next :: WellFormed(u)
  }

  const TREE21 := Leaves(3, TAB21)
  const TREE20 := Leaves(3, TAB20)
  const TREE19 := Read(2, [TREE21, Leaf(106), TREE20, Leaf(0)])
  const TREE13 := Read(3, [TREE19, Leaves(4, TAB18), Leaves(5, TAB17), Leaf(43), Leaves(4, TAB16), Leaves(4, TAB15), Leaves(1, TAB14), Leaf(47)])
  const TREE11 := Read(2, [TREE13, Leaf(98), Leaves(1, TAB12), Leaf(120)])
  const TREE9 := Read(2, [TREE11, Leaf(115), Leaves(2, TAB10), Leaf(108)])
  const TREE5 := Read(2, [Leaves(2, TAB7), Leaf(111), Leaves(1, TAB6), Leaf(100)])
  const TREE := Read(3, [TREE9, Leaves(2, TAB8), TREE5, Leaf(114), Leaves(1, TAB4), Leaves(1, TAB3), Leaves(1, TAB2), Leaf(97)])

  /** Read one character off the low bits of `c`. */
  function Walk(t: Tree, c: nat): (nat, nat)
    requires WellFormed(t)
  {
    match t
    case Leaf(ch) => (ch, c)
    case Read(k, next) => (QuotientFits(c, Two(k), c + 1); Walk(next[c % Two(k)], c / Two(k)))
  }

  /** The character whose code is exactly the `len` bits `b`, if any. */
  function WalkCode(t: Tree, b: nat, len: nat): Option<nat>
    requires WellFormed(t)
  {
    match t
    case Leaf(ch) => if len == 0 && b == 0 then Some(ch) else None
    case Read(k, next) =>
      if k > len then None
      else (QuotientFits(b, Two(k), b + 1); WalkCode(next[b % Two(k)], b / Two(k), len - k))
  }

  /** A code is read off whatever follows it. */
  lemma {:induction false} CodeIsRead(t: Tree, b: nat, len: nat, rest: nat, c: nat)
    requires WellFormed(t) && WalkCode(t, b, len).Some? && c == b + rest * Two(len)
    ensures Walk(t, c) == (WalkCode(t, b, len).value, rest)
  {
    hide Two;
    hide WalkCode;
    hide Walk;
    match t
    case Leaf(_) =>
      LeafStep(t, b, len, rest, c);
    case Read(k, next) =>
      CodeStep(k, next, b, len);
      WalkStep(k, next, c);
      SplitCode(b, len, rest, k);
      CodeIsRead(next[b % Two(k)], b / Two(k), len - k, rest, c / Two(k));
  }

  lemma LeafStep(t: Tree, b: nat, len: nat, rest: nat, c: nat)
    requires t.Leaf? && WellFormed(t) && WalkCode(t, b, len).Some? && c == b + rest * Two(len)
    ensures Walk(t, c) == (WalkCode(t, b, len).value, rest)
  {
    TwoZero();
  }

  lemma {:induction false} Subtree(k: nat, next: seq<Tree>, b: nat)
    requires WellFormed(Read(k, next))
    ensures 0 <= b % Two(k) < |next| && 0 <= b / Two(k) && WellFormed(next[b % Two(k)])
  {
    hide Two;
    QuotientFits(b, Two(k), b + 1);
    Child(k, next, b % Two(k));
  }

  lemma {:induction false} Child(k: nat, next: seq<Tree>, i: nat)
    requires WellFormed(Read(k, next)) && i < |next|
    ensures |next| == Two(k) && WellFormed(next[i])
  {
    hide Two;
    var t := Read(k, next);
    assert |t.next| == Two(t.k) && t.next[i] in t.next;
  }

  lemma {:induction false} CodeStep(k: nat, next: seq<Tree>, b: nat, len: nat)
    requires WellFormed(Read(k, next)) && WalkCode(Read(k, next), b, len).Some?
    ensures k <= len && 0 <= b % Two(k) < |next| && 0 <= b / Two(k)
    ensures WalkCode(next[b % Two(k)], b / Two(k), len - k) == WalkCode(Read(k, next), b, len)
  {
    hide Two;
    hide WellFormed;
    Subtree(k, next, b);
    var t := Read(k, next);
    assert k <= len;
    assert WalkCode(t, b, len) == WalkCode(t.next[b % Two(k)], b / Two(k), len - k);
  }

  lemma {:induction false} WalkStep(k: nat, next: seq<Tree>, c: nat)
    requires WellFormed(Read(k, next))
    ensures 0 <= c % Two(k) < |next| && 0 <= c / Two(k)
    ensures Walk(next[c % Two(k)], c / Two(k)) == Walk(Read(k, next), c)
  {
    hide Two;
    hide WellFormed;
    Subtree(k, next, c);
    var t := Read(k, next);
    assert Walk(t, c) == Walk(t.next[c % Two(k)], c / Two(k));
  }

  lemma TwoZero()
    ensures Two(0) == 1
  {
  }

  lemma SplitCode(b: nat, len: nat, rest: nat, k: nat)
    requires k <= len
    ensures (b + rest * Two(len)) % Two(k) == b % Two(k)
    ensures (b + rest * Two(len)) / Two(k) == b / Two(k) + rest * Two(len - k)
  {
    hide Two;
    var d := Two(k);
    TwoAdd(k, len - k);
    assert rest * Two(len) == rest * Two(len - k) * d by {
      MulAssoc(rest, Two(len - k), d);
    }
    assert b == b / d * d + b % d;
    var q := b / d + rest * Two(len - k);
    assert q * d == b / d * d + rest * Two(len - k) * d;
    DivModUnique(b + rest * Two(len), d, q, b % d);
  }

  lemma Powers()
    ensures Two(1) == 2 && Two(2) == 4 && Two(3) == 8 && Two(4) == 16 && Two(5) == 32
  {
  }

  lemma LeavesWellFormed(k: nat, tab: seq<nat>)
    requires k >= 1 && |tab| == Two(k)
    ensures WellFormed(Leaves(k, tab))
  {
    var t := Leaves(k, tab);
    forall u <- t.next
      ensures WellFormed(u)
    {
      assert u.Leaf?;
    }
  }

  lemma FourWellFormed(a: Tree, b: Tree, c: Tree, d: Tree)
    requires WellFormed(a) && WellFormed(b) && WellFormed(c) && WellFormed(d)
    ensures WellFormed(Read(2, [a, b, c, d]))
  {
    Powers();
  }

  lemma EightWellFormed(a: Tree, b: Tree, c: Tree, d: Tree, e: Tree, f: Tree, g: Tree, h: Tree)
    requires WellFormed(a) && WellFormed(b) && WellFormed(c) && WellFormed(d)
    requires WellFormed(e) && WellFormed(f) && WellFormed(g) && WellFormed(h)
    ensures WellFormed(Read(3, [a, b, c, d, e, f, g, h]))
  {
    Powers();
  }

  lemma TreesWellFormed()
    ensures WellFormed(TREE) && WellFormed(TREE9) && WellFormed(TREE5) && WellFormed(TREE11) && WellFormed(TREE13) && WellFormed(TREE19)
  {
    hide WellFormed;
    hide Leaves;
    Powers();
    LeafWellFormed();
    LeavesWellFormed(3, TAB21);
    LeavesWellFormed(3, TAB20);
    LeavesWellFormed(4, TAB18);
    LeavesWellFormed(5, TAB17);
    LeavesWellFormed(4, TAB16);
    LeavesWellFormed(4, TAB15);
    LeavesWellFormed(1, TAB14);
    LeavesWellFormed(1, TAB12);
    LeavesWellFormed(2, TAB10);
    LeavesWellFormed(2, TAB8);
    LeavesWellFormed(2, TAB7);
    LeavesWellFormed(1, TAB6);
    LeavesWellFormed(1, TAB4);
    LeavesWellFormed(1, TAB3);
    LeavesWellFormed(1, TAB2);
    FourWellFormed(TREE21, Leaf(106), TREE20, Leaf(0));
    EightWellFormed(TREE19, Leaves(4, TAB18), Leaves(5, TAB17), Leaf(43),
                    Leaves(4, TAB16), Leaves(4, TAB15), Leaves(1, TAB14), Leaf(47));
    FourWellFormed(TREE13, Leaf(98), Leaves(1, TAB12), Leaf(120));
    FourWellFormed(TREE11, Leaf(115), Leaves(2, TAB10), Leaf(108));
    FourWellFormed(Leaves(2, TAB7), Leaf(111), Leaves(1, TAB6), Leaf(100));
    EightWellFormed(TREE9, Leaves(2, TAB8), TREE5, Leaf(114), Leaves(1, TAB4), Leaves(1, TAB3), Leaves(1, TAB2), Leaf(97));
  }

  lemma LeafWellFormed()
    ensures forall c: nat :: WellFormed(Leaf(c))
  {
  }

  // -------------------------------------------------- the table and the tree

  /** Is the table's code of `c` the tree's? */
  ghost predicate CodeOk(c: nat)
    requires WellFormed(TREE)
  {
    WalkCode(TREE, HuffTable(c).bits, HuffTable(c).len) == Some(c) && HuffTable(c).bits > 0
  }

  /** The first bits of a code choose the subtree. */
  lemma Descend(k: nat, next: seq<Tree>, j: nat, b: nat, len: nat)
    requires WellFormed(Read(k, next)) && j < Two(k)
    ensures WalkCode(Read(k, next), j + Two(k) * b, k + len) == WalkCode(next[j], b, len)
  {
    DivModUnique(j + Two(k) * b, Two(k), b, j);
  }

  lemma LeafCode(k: nat, tab: seq<nat>, i: nat)
    requires k >= 1 && |tab| == Two(k) && i < |tab|
    ensures WellFormed(Leaves(k, tab)) && WalkCode(Leaves(k, tab), i, k) == Some(tab[i])
  {
    LeavesWellFormed(k, tab);
    var t := Leaves(k, tab);
    Descend(k, t.next, i, 0, 0);
  }

  /** What lies below a subtree, seen from the root. */
  lemma Below(b: nat, len: nat)
    requires WellFormed(TREE) && WellFormed(TREE9) && WellFormed(TREE5) && WellFormed(TREE11) && WellFormed(TREE13)
    ensures WalkCode(TREE, 8 * b, 3 + len) == WalkCode(TREE9, b, len)
    ensures WalkCode(TREE, 2 + 8 * b, 3 + len) == WalkCode(TREE5, b, len)
    ensures WalkCode(TREE, 32 * b, 5 + len) == WalkCode(TREE11, b, len)
    ensures WalkCode(TREE, 128 * b, 7 + len) == WalkCode(TREE13, b, len)
  {
    hide WalkCode;
    hide WellFormed;
    Powers();
    Descend(3, TREE.next, 0, b, len);
    Descend(3, TREE.next, 2, b, len);
    Descend(3, TREE.next, 0, 4 * b, 2 + len);
    Descend(2, TREE9.next, 0, b, len);
    Descend(3, TREE.next, 0, 16 * b, 4 + len);
    Descend(2, TREE9.next, 0, 4 * b, 2 + len);
    Descend(2, TREE11.next, 0, b, len);
  }

  lemma {:induction false} Table2(i: nat)
    requires i < 2
    ensures HuffTable(TAB2[i]) == Entry(4, 6 + 8 * i)
  {
  }

  lemma {:induction false} Under2(i: nat)
    requires i < 2
    ensures WellFormed(TREE) && CodeOk(TAB2[i])
  {
    hide WalkCode;
    hide WellFormed;
    hide HuffTable;
    Powers();
    TreesWellFormed();
    Descend(3, TREE.next, 6, i, 1);
    LeafCode(1, TAB2, i);
    Table2(i);
  }

  lemma {:induction false} Table3(i: nat)
    requires i < 2
    ensures HuffTable(TAB3[i]) == Entry(4, 5 + 8 * i)
  {
  }

  lemma {:induction false} Under3(i: nat)
    requires i < 2
    ensures WellFormed(TREE) && CodeOk(TAB3[i])
  {
    hide WalkCode;
    hide WellFormed;
    hide HuffTable;
    Powers();
    TreesWellFormed();
    Descend(3, TREE.next, 5, i, 1);
    LeafCode(1, TAB3, i);
    Table3(i);
  }

  lemma {:induction false} Table4(i: nat)
    requires i < 2
    ensures HuffTable(TAB4[i]) == Entry(4, 4 + 8 * i)
  {
  }

  lemma {:induction false} Under4(i: nat)
    requires i < 2
    ensures WellFormed(TREE) && CodeOk(TAB4[i])
  {
    hide WalkCode;
    hide WellFormed;
    hide HuffTable;
    Powers();
    TreesWellFormed();
    Descend(3, TREE.next, 4, i, 1);
    LeafCode(1, TAB4, i);
    Table4(i);
  }

  lemma {:induction false} Table6(i: nat)
    requires i < 2
    ensures HuffTable(TAB6[i]) == Entry(6, 18 + 32 * i)
  {
  }

  lemma {:induction false} Under6(i: nat)
    requires i < 2
    ensures WellFormed(TREE) && CodeOk(TAB6[i])
  {
    hide WalkCode;
    hide WellFormed;
    hide HuffTable;
    Powers();
    TreesWellFormed();
    Below(2 + 4 * i, 3);
    Descend(2, TREE5.next, 2, i, 1);
    LeafCode(1, TAB6, i);
    Table6(i);
  }

  lemma {:induction false} Table7(i: nat)
    requires i < 4
    ensures HuffTable(TAB7[i]) == Entry(7, 2 + 32 * i)
  {
  }

  lemma {:induction false} Under7(i: nat)
    requires i < 4
    ensures WellFormed(TREE) && CodeOk(TAB7[i])
  {
    hide WalkCode;
    hide WellFormed;
    hide HuffTable;
    Powers();
    TreesWellFormed();
    Below(0 + 4 * i, 4);
    Descend(2, TREE5.next, 0, i, 2);
    LeafCode(2, TAB7, i);
    Table7(i);
  }

  lemma {:induction false} Table8(i: nat)
    requires i < 4
    ensures HuffTable(TAB8[i]) == Entry(5, 1 + 8 * i)
  {
  }

  lemma {:induction false} Under8(i: nat)
    requires i < 4
    ensures WellFormed(TREE) && CodeOk(TAB8[i])
  {
    hide WalkCode;
    hide WellFormed;
    hide HuffTable;
    Powers();
    TreesWellFormed();
    Descend(3, TREE.next, 1, i, 2);
    LeafCode(2, TAB8, i);
    Table8(i);
  }

  lemma {:induction false} Table10(i: nat)
    requires i < 4
    ensures HuffTable(TAB10[i]) == Entry(7, 16 + 32 * i)
  {
  }

  lemma {:induction false} Under10(i: nat)
    requires i < 4
    ensures WellFormed(TREE) && CodeOk(TAB10[i])
  {
    hide WalkCode;
    hide WellFormed;
    hide HuffTable;
    Powers();
    TreesWellFormed();
    Below(2 + 4 * i, 4);
    Descend(2, TREE9.next, 2, i, 2);
    LeafCode(2, TAB10, i);
    Table10(i);
  }

  lemma {:induction false} Table12(i: nat)
    requires i < 2
    ensures HuffTable(TAB12[i]) == Entry(8, 64 + 128 * i)
  {
  }

  lemma {:induction false} Under12(i: nat)
    requires i < 2
    ensures WellFormed(TREE) && CodeOk(TAB12[i])
  {
    hide WalkCode;
    hide WellFormed;
    hide HuffTable;
    Powers();
    TreesWellFormed();
    Below(2 + 4 * i, 3);
    Descend(2, TREE11.next, 2, i, 1);
    LeafCode(1, TAB12, i);
    Table12(i);
  }

  lemma {:induction false} Table14(i: nat)
    requires i < 2
    ensures HuffTable(TAB14[i]) == Entry(11, 768 + 1024 * i)
  {
  }

  lemma {:induction false} Under14(i: nat)
    requires i < 2
    ensures WellFormed(TREE) && CodeOk(TAB14[i])
  {
    hide WalkCode;
    hide WellFormed;
    hide HuffTable;
    Powers();
    TreesWellFormed();
    Below(6 + 8 * i, 4);
    Descend(3, TREE13.next, 6, i, 1);
    LeafCode(1, TAB14, i);
    Table14(i);
  }

  lemma {:induction false} Table15(i: nat)
    requires i < 16
    ensures HuffTable(TAB15[i]) == Entry(14, 640 + 1024 * i)
  {
  }

  lemma {:induction false} Under15(i: nat)
    requires i < 16
    ensures WellFormed(TREE) && CodeOk(TAB15[i])
  {
    hide WalkCode;
    hide WellFormed;
    hide HuffTable;
    Powers();
    TreesWellFormed();
    Below(5 + 8 * i, 7);
    Descend(3, TREE13.next, 5, i, 4);
    LeafCode(4, TAB15, i);
    Table15(i);
  }

  lemma {:induction false} Table16(i: nat)
    requires i < 16
    ensures HuffTable(TAB16[i]) == Entry(14, 512 + 1024 * i)
  {
  }

  lemma {:induction false} Under16(i: nat)
    requires i < 16
    ensures WellFormed(TREE) && CodeOk(TAB16[i])
  {
    hide WalkCode;
    hide WellFormed;
    hide HuffTable;
    Powers();
    TreesWellFormed();
    Below(4 + 8 * i, 7);
    Descend(3, TREE13.next, 4, i, 4);
    LeafCode(4, TAB16, i);
    Table16(i);
  }

  lemma {:induction false} Table17(i: nat)
    requires i < 32
    ensures HuffTable(TAB17[i]) == Entry(15, 256 + 1024 * i)
  {
  }

  lemma {:induction false} Under17(i: nat)
    requires i < 32
    ensures WellFormed(TREE) && CodeOk(TAB17[i])
  {
    hide WalkCode;
    hide WellFormed;
    hide HuffTable;
    Powers();
    TreesWellFormed();
    Below(2 + 8 * i, 8);
    Descend(3, TREE13.next, 2, i, 5);
    LeafCode(5, TAB17, i);
    Table17(i);
  }

  lemma {:induction false} Table18(i: nat)
    requires i < 16
    ensures HuffTable(TAB18[i]) == Entry(14, 128 + 1024 * i)
  {
  }

  lemma {:induction false} Under18(i: nat)
    requires i < 16
    ensures WellFormed(TREE) && CodeOk(TAB18[i])
  {
    hide WalkCode;
    hide WellFormed;
    hide HuffTable;
    Powers();
    TreesWellFormed();
    Below(1 + 8 * i, 7);
    Descend(3, TREE13.next, 1, i, 4);
    LeafCode(4, TAB18, i);
    Table18(i);
  }

  // The characters that sit directly below an inner node.

  lemma {:induction false} SingleRoot()
    ensures WellFormed(TREE) && CodeOk(114) && CodeOk(97)
  {
    hide WalkCode;
    hide WellFormed;
    Powers();
    TreesWellFormed();
    LeafWellFormed();
    SingleAt(TREE, 3, 114);
    SingleAt(TREE, 7, 97);
  }

  lemma {:induction false} Single9()
    ensures WellFormed(TREE) && CodeOk(115) && CodeOk(108)
  {
    hide WalkCode;
    hide WellFormed;
    Powers();
    TreesWellFormed();
    LeafWellFormed();
    Below(1, 2);
    SingleAt(TREE9, 1, 115);
    Below(3, 2);
    SingleAt(TREE9, 3, 108);
  }

  lemma {:induction false} Single11()
    ensures WellFormed(TREE) && CodeOk(98) && CodeOk(120)
  {
    hide WalkCode;
    hide WellFormed;
    Powers();
    TreesWellFormed();
    LeafWellFormed();
    Below(1, 2);
    SingleAt(TREE11, 1, 98);
    Below(3, 2);
    SingleAt(TREE11, 3, 120);
  }

  lemma {:induction false} Single5()
    ensures WellFormed(TREE) && CodeOk(111) && CodeOk(100)
  {
    hide WalkCode;
    hide WellFormed;
    Powers();
    TreesWellFormed();
    LeafWellFormed();
    Below(1, 2);
    SingleAt(TREE5, 1, 111);
    Below(3, 2);
    SingleAt(TREE5, 3, 100);
  }

  lemma {:induction false} Single13()
    ensures WellFormed(TREE) && CodeOk(43) && CodeOk(47)
  {
    hide WalkCode;
    hide WellFormed;
    Powers();
    TreesWellFormed();
    LeafWellFormed();
    Below(3, 3);
    SingleAt(TREE13, 3, 43);
    Below(7, 3);
    SingleAt(TREE13, 7, 47);
  }

  lemma {:induction false} Single19()
    ensures WellFormed(TREE) && CodeOk(106)
  {
    hide WalkCode;
    hide WellFormed;
    Powers();
    TreesWellFormed();
    LeafWellFormed();
    Below(8, 5);
    Descend(3, TREE13.next, 0, 1, 2);
    SingleAt(TREE19, 1, 106);
  }

  lemma SingleAt(t: Tree, j: nat, c: nat)
    requires WellFormed(t) && t.Read? && j < |t.next| && t.next[j] == Leaf(c)
    ensures WalkCode(t, j, t.k) == Some(c)
  {
    Descend(t.k, t.next, j, 0, 0);
  }

  /** The characters that packed symbols may contain. */
  predicate Admitted(c: nat) {
    32 < c <= 127 && c !in {92, 124, 46, 35} && !Characters.IsSeparator(c as char)
  }

  lemma {:induction false} SignCodes(c: nat)
    requires c in {33, 36, 37, 38, 42, 45, 58, 60, 61, 62, 63, 64, 94, 95, 96, 126, 127}
    ensures WellFormed(TREE) && CodeOk(c)
  {
    hide WalkCode;
    hide HuffTable;
    hide CodeOk;
    hide WellFormed;
    hide TREE;
    match c
    case 33 => Under12(0);
    case 36 => Under17(13);
    case 37 => Under17(29);
    case 38 => Under17(3);
    case 42 => Under14(0);
    case 45 => Under3(1);
    case 58 => Under18(1);
    case 60 => Under10(2);
    case 61 => Under7(2);
    case 62 => Under7(1);
    case 63 => Under8(1);
    case 64 => Under18(5);
    case 94 => Under16(1);
    case 95 => Under16(9);
    case 96 => Under16(5);
    case 126 => Under16(7);
    case 127 => Under16(15);
  }

  lemma {:induction false} DigitCodes(c: nat)
    requires 48 <= c <= 57
    ensures WellFormed(TREE) && CodeOk(c)
  {
    hide WalkCode;
    hide HuffTable;
    hide CodeOk;
    hide WellFormed;
    hide TREE;
    match c
    case 48 => Under17(15);
    case 49 => Under17(31);
    case 50 => Under18(0);
    case 51 => Under18(8);
    case 52 => Under18(4);
    case 53 => Under18(12);
    case 54 => Under18(2);
    case 55 => Under18(10);
    case 56 => Under18(6);
    case 57 => Under18(14);
  }

  lemma {:induction false} UpperCodes(c: nat)
    requires 65 <= c <= 90
    ensures WellFormed(TREE) && CodeOk(c)
  {
    hide WalkCode;
    hide HuffTable;
    hide CodeOk;
    hide WellFormed;
    hide TREE;
    match c
    case 65 => Under18(13);
    case 66 => Under18(3);
    case 67 => Under18(11);
    case 68 => Under18(7);
    case 69 => Under18(15);
    case 70 => Under15(0);
    case 71 => Under15(8);
    case 72 => Under15(4);
    case 73 => Under15(12);
    case 74 => Under15(2);
    case 75 => Under15(10);
    case 76 => Under15(6);
    case 77 => Under15(14);
    case 78 => Under15(1);
    case 79 => Under15(9);
    case 80 => Under15(5);
    case 81 => Under15(13);
    case 82 => Under15(3);
    case 83 => Under15(11);
    case 84 => Under15(7);
    case 85 => Under15(15);
    case 86 => Under16(0);
    case 87 => Under16(8);
    case 88 => Under16(4);
    case 89 => Under16(12);
    case 90 => Under16(2);
  }

  lemma {:induction false} LowerCodes(c: nat)
    requires c in {99, 101, 102, 103, 104, 105, 107, 109, 110, 112, 113, 116, 117, 118, 119, 121, 122}
    ensures WellFormed(TREE) && CodeOk(c)
  {
    hide WalkCode;
    hide HuffTable;
    hide CodeOk;
    hide WellFormed;
    hide TREE;
    match c
    case 99 => Under4(0);
    case 101 => Under2(0);
    case 102 => Under7(0);
    case 103 => Under8(2);
    case 104 => Under6(0);
    case 105 => Under4(1);
    case 107 => Under12(1);
    case 109 => Under6(1);
    case 110 => Under3(0);
    case 112 => Under8(0);
    case 113 => Under10(3);
    case 116 => Under2(1);
    case 117 => Under8(3);
    case 118 => Under7(3);
    case 119 => Under10(1);
    case 121 => Under10(0);
    case 122 => Under14(1);
  }

  /** Every admitted character's code in the table is its code in the tree. */
  lemma {:induction false} TableMatchesTree(c: nat)
    requires Admitted(c)
    ensures WellFormed(TREE) && CodeOk(c)
  {
    hide WellFormed;
    hide TREE;
    hide CodeOk;
    SingleRoot();
    Single9();
    Single11();
    Single5();
    Single13();
    Single19();
    if c in {33, 36, 37, 38, 42, 45, 58, 60, 61, 62, 63, 64, 94, 95, 96, 126, 127} {
      SignCodes(c);
    } else if 48 <= c <= 57 {
      DigitCodes(c);
    } else if 65 <= c <= 90 {
      UpperCodes(c);
    } else if c in {99, 101, 102, 103, 104, 105, 107, 109, 110, 112, 113, 116, 117, 118, 119, 121, 122} {
      LowerCodes(c);
    }
  }

  // ----------------------------------------------------- the decoder's code

  /** The bit-by-bit decoder: one character and the remaining bits. */
  method Unhuff(c0: nat) returns (res: nat, c: nat)
    requires WellFormed(TREE)
    ensures (res, c) == Walk(TREE, c0)
  {
    hide Walk;
    hide WellFormed;
    TreesWellFormed();
    Powers();
    WalkStep(3, TREE.next, c0);
    res, c := c0 % 8, c0 / 8;
    if res == 0 {
      res, c := Unhuff9(c);
    } else if res == 1 {
      LeafWalk(2, TAB8, c);
      res, c := TAB8[c % 4], c / 4;
    } else if res == 2 {
      WalkStep(2, TREE5.next, c);
      res, c := c % 4, c / 4;
      if res == 0 {
        LeafWalk(2, TAB7, c);
        res, c := TAB7[c % 4], c / 4;
      } else {
        CharWalk(c);
        res := TAB5[res];
        if res == 0 {
          LeafWalk(1, TAB6, c);
          res, c := TAB6[c % 2], c / 2;
        }
      }
    } else if res == 4 {
      LeafWalk(1, TAB4, c);
      res, c := TAB4[c % 2], c / 2;
    } else if res == 5 {
      LeafWalk(1, TAB3, c);
      res, c := TAB3[c % 2], c / 2;
    } else {
      CharWalk(c);
      res := TAB1[res];
      if res == 0 {
        LeafWalk(1, TAB2, c);
        res, c := TAB2[c % 2], c / 2;
      }
    }
  }

  /** After three zero bits. */
  method Unhuff9(c0: nat) returns (res: nat, c: nat)
    requires WellFormed(TREE9)
    ensures (res, c) == Walk(TREE9, c0)
  {
    hide Walk;
    hide WellFormed;
    TreesWellFormed();
    Powers();
    WalkStep(2, TREE9.next, c0);
    res, c := c0 % 4, c0 / 4;
    if res == 0 {
      WalkStep(2, TREE11.next, c);
      res, c := c % 4, c / 4;
      if res == 0 {
        res, c := Unhuff13(c);
      } else {
        CharWalk(c);
        res := TAB11[res];
        if res == 0 {
          LeafWalk(1, TAB12, c);
          res, c := TAB12[c % 2], c / 2;
        }
      }
    } else {
      CharWalk(c);
      res := TAB9[res];
      if res == 0 {
        LeafWalk(2, TAB10, c);
        res, c := TAB10[c % 4], c / 4;
      }
    }
  }

  /** After seven zero bits. */
  method Unhuff13(c0: nat) returns (res: nat, c: nat)
    requires WellFormed(TREE13)
    ensures (res, c) == Walk(TREE13, c0)
  {
    hide Walk;
    hide WellFormed;
    TreesWellFormed();
    Powers();
    WalkStep(3, TREE13.next, c0);
    res, c := c0 % 8, c0 / 8;
    CharWalk(c);
    if res == 0 {
      WalkStep(2, TREE19.next, c);
      res, c := c % 4, c / 4;
      CharWalk(c);
      if res == 0 {
        LeafWalk(3, TAB21, c);
        res, c := TAB21[c % 8], c / 8;
      } else {
        res := TAB19[res];
        if res == 1 {
          LeafWalk(3, TAB20, c);
          res, c := TAB20[c % 8], c / 8;
        }
      }
    } else if res == 1 {
      LeafWalk(4, TAB18, c);
      res, c := TAB18[c % 16], c / 16;
    } else if res == 2 {
      LeafWalk(5, TAB17, c);
      res, c := TAB17[c % 32], c / 32;
    } else if res == 4 {
      LeafWalk(4, TAB16, c);
      res, c := TAB16[c % 16], c / 16;
    } else if res == 5 {
      LeafWalk(4, TAB15, c);
      res, c := TAB15[c % 16], c / 16;
    } else {
      res := TAB13[res];
      if res == 0 {
        LeafWalk(1, TAB14, c);
        res, c := TAB14[c % 2], c / 2;
      }
    }
  }

  lemma CharWalk(c: nat)
    ensures forall ch: nat :: WellFormed(Leaf(ch)) && Walk(Leaf(ch), c) == (ch, c)
  {
  }

  lemma LeafWalk(k: nat, tab: seq<nat>, c: nat)
    requires k >= 1 && |tab| == Two(k)
    ensures 0 <= c % Two(k) < |tab| && 0 <= c / Two(k)
    ensures WellFormed(Leaves(k, tab)) && Walk(Leaves(k, tab), c) == (tab[c % Two(k)], c / Two(k))
  {
    LeavesWellFormed(k, tab);
    var t := Leaves(k, tab);
    WalkStep(k, t.next, c);
  }

  // ----------------------------------------------------------------- packing

  const IMMEDIATE_BITS: nat := 4
  const IMMEDIATE_UNIT: nat := 16
  const ISYMBOL_TAG: nat := 6
  const WORD_BITS: nat := 64

  /** A code with more bits above it. */
  function Joined(e: Entry, rest: nat): nat {
    e.bits + rest * Two(e.len)
  }

  /** The codes of a string, one after the other from the lowest bit up. */
  function Code(s: seq<nat>): nat
  {
    if s == [] then 0 else Joined(HuffTable(s[0]), Code(s[1..]))
  }

  function Width(s: seq<nat>): nat
  {
    if s == [] then 0 else HuffTable(s[0]).len + Width(s[1..])
  }

  predicate IsDigit(c: nat) { 48 <= c <= 57 }

  /** Does the name become an immediate symbol? */
  ghost predicate Packable(s: seq<nat>) {
    && s != [] && !IsDigit(s[0]) && !(s[0] in {43, 45} && |s| > 1)
    && (forall c <- s :: Admitted(c)) && IMMEDIATE_BITS + Width(s) <= WORD_BITS
  }

  datatype Kind = PointerWord | FixnumWord | CursorWord | SymbolWord | FlonumWord | CharacterWord | LabelWord | OtherWord

  /** What a word is, by its lowest one, two, three, four and eight bits. */
  function KindOf(w: nat): Kind {
    if w % 2 == 1 then FixnumWord
    else if w % 4 == 0 then PointerWord
    else if w % 8 == 2 then CursorWord
    else if w % 16 == 6 then SymbolWord
    else if w % 256 == 14 then FlonumWord
    else if w % 256 == 30 then CharacterWord
    else if w % 256 == 46 then LabelWord
    else OtherWord
  }

  /** No word is of two kinds. */
  lemma KindsApart(w: nat)
    ensures w % 16 == 6 ==> w % 2 != 1 && w % 4 != 0 && w % 8 != 2 && w % 256 !in {14, 30, 46, 62}
    ensures KindOf(w) == SymbolWord <==> w % 16 == 6
  {
  }

  lemma TaggedSymbol(code: nat)
    ensures KindOf(code * IMMEDIATE_UNIT + ISYMBOL_TAG) == SymbolWord
  {
    DivModUnique(code * IMMEDIATE_UNIT + ISYMBOL_TAG, IMMEDIATE_UNIT, code, ISYMBOL_TAG);
    KindsApart(code * IMMEDIATE_UNIT + ISYMBOL_TAG);
  }

  /** The characters of names that become immediate: letters, digits, these signs, and DEL. */
  lemma AdmittedAre(c: char)
    ensures IsDigit(c as nat) <==> '0' <= c <= '9'
    ensures Admitted(c as nat) <==>
              || 'a' <= c <= 'z' || 'A' <= c <= 'Z' || '0' <= c <= '9' || c as nat == 127
              || c in {'!', '$', '%', '&', '*', '+', '-', '/', ':', '<', '=', '>', '?', '@', '^', '_', '`', '~'}
  {
  }

  /** Pack a name into an immediate word, if it can be. */
  method Intern(s: seq<nat>) returns (r: Option<nat>)
    ensures r.Some? <==> Packable(s)
    ensures r.Some? ==> r.value == Code(s) * IMMEDIATE_UNIT + ISYMBOL_TAG && r.value < Two(WORD_BITS)
    ensures r.Some? ==> KindOf(r.value) == SymbolWord
  {
    hide HuffTable;
    hide Two;
    hide Code;
    hide Width;
    EmptyCode();
    var res: nat, space, i := 0, IMMEDIATE_BITS, 0;
    if |s| == 0 || IsDigit(s[0]) || ((s[0] == 43 || s[0] == 45) && |s| > 1) {
      return None;
    }
    assert s[..0] == [];
    while i < |s|
      invariant 0 <= i <= |s| && (forall c <- s[..i] :: Admitted(c))
      invariant space == IMMEDIATE_BITS + Width(s[..i]) <= WORD_BITS
      invariant res == Code(s[..i]) * IMMEDIATE_UNIT && Code(s[..i]) < Two(Width(s[..i]))
    {
      var c := s[i];
      if !Admitted(c) {
        assert c in s;
        return None;
      }
      var he := HuffTable(c);
      Appended(s[..i], c);
      Code1(he.bits, space);
      assert s[..i + 1] == s[..i] + [c];
      if space + he.len > WORD_BITS {
        WidthPrefix(s, i + 1);
        return None;
      }
      Shifted(Code(s[..i]), he.bits, Width(s[..i]));
      res := res + he.bits * Two(space);
      space := space + he.len;
      i := i + 1;
    }
    assert s[..|s|] == s;
    FitsWord(Code(s), Width(s));
    TaggedSymbol(Code(s));
    return Some(res + ISYMBOL_TAG);
  }

  /** A code has no bits beyond its length. */
  lemma {:induction false} CodeFits(t: Tree, b: nat, len: nat)
    requires WellFormed(t) && WalkCode(t, b, len).Some?
    ensures b < Two(len)
  {
    hide Two;
    if t.Leaf? {
      TwoZero();
    } else {
      CodeStep(t.k, t.next, b, len);
      CodeFits(t.next[b % Two(t.k)], b / Two(t.k), len - t.k);
      TwoAdd(len - t.k, t.k);
      BelowProduct(b, Two(t.k), Two(len - t.k));
    }
  }

  lemma BelowProduct(b: int, d: int, m: int)
    requires d > 0 && b / d < m
    ensures b < m * d
  {
    MulLe(d, b / d + 1, m);
  }

  lemma EntryFits(c: nat)
    requires Admitted(c)
    ensures 0 < HuffTable(c).bits < Two(HuffTable(c).len)
  {
    hide HuffTable;
    TableMatchesTree(c);
    CodeFits(TREE, HuffTable(c).bits, HuffTable(c).len);
  }

  /** A code placed above `w` bits that are taken fits. */
  lemma Placed(code: int, w: nat, bits: int, len: nat)
    requires 0 <= code < Two(w) && 0 <= bits < Two(len)
    ensures 0 <= code + bits * Two(w) < Two(w + len)
  {
    hide Two;
    TwoAdd(w, len);
    MulLe(Two(w), bits, Two(len) - 1);
    MulLe(Two(w), 0, bits);
  }

  lemma {:induction false} Appended(s: seq<nat>, c: nat)
    requires (forall d <- s :: Admitted(d)) && Admitted(c)
    ensures Width(s + [c]) == Width(s) + HuffTable(c).len
    ensures Code(s) < Two(Width(s)) && Code(s + [c]) == Code(s) + HuffTable(c).bits * Two(Width(s)) < Two(Width(s + [c]))
  {
    hide HuffTable;
    hide Two;
    var e := HuffTable(c);
    TwoZero();
    EntryFits(c);
    if s == [] {
      assert [] + [c] == [c] && [c][1..] == [];
    } else {
      var h, t := HuffTable(s[0]), s[1..];
      Appended(t, c);
      assert (s + [c])[1..] == t + [c];
      AppendedCode(h.bits, Code(t), e.bits, h.len, Width(t));
      EntryFits(s[0]);
      Placed(h.bits, h.len, Code(t), Width(t));
    }
    Placed(Code(s), Width(s), e.bits, e.len);
  }

  lemma AppendedCode(h: int, t: int, e: int, len: nat, w: nat)
    ensures h + (t + e * Two(w)) * Two(len) == h + t * Two(len) + e * Two(len + w)
  {
    hide Two;
    TwoAdd(w, len);
    MulAssoc(e, Two(w), Two(len));
  }

  lemma {:induction false} WidthPrefix(s: seq<nat>, i: nat)
    requires i <= |s|
    ensures Width(s[..i]) <= Width(s)
  {
    hide HuffTable;
    if i > 0 {
      WidthPrefix(s[1..], i - 1);
      assert s[..i][1..] == s[1..][..i - 1];
    }
  }

  lemma Shifted(code: int, bits: int, w: nat)
    ensures code * IMMEDIATE_UNIT + bits * Two(IMMEDIATE_BITS + w) == (code + bits * Two(w)) * IMMEDIATE_UNIT
  {
    hide Two;
    Powers();
    TwoAdd(w, IMMEDIATE_BITS);
    MulAssoc(bits, Two(w), IMMEDIATE_UNIT);
  }

  lemma EmptyCode()
    ensures Code([]) == 0 && Width([]) == 0 && Two(0) == 1
  {
  }

  lemma Code1(bits: nat, space: nat)
    ensures bits * Two(space) >= 0
  {
    MulLe(Two(space), 0, bits);
  }

  lemma FitsWord(code: int, w: nat)
    requires 0 <= code < Two(w) && IMMEDIATE_BITS + w <= WORD_BITS
    ensures code * IMMEDIATE_UNIT + ISYMBOL_TAG < Two(WORD_BITS)
  {
    hide Two;
    Powers();
    TwoAdd(w, IMMEDIATE_BITS);
    TwoMono(w + IMMEDIATE_BITS, WORD_BITS);
  }

  // ---------------------------------------------------------------- unpacking

  lemma WalkSmaller(t: Tree, c: nat)
    requires WellFormed(t)
    ensures Walk(t, c).1 <= c && (t.Read? && c > 0 ==> Walk(t, c).1 < c)
  {
    if t.Read? {
      WalkStep(t.k, t.next, c);
      TwoBelow(c, t.k);
      WalkSmaller(t.next[c % Two(t.k)], c / Two(t.k));
    }
  }

  lemma TwoBelow(c: nat, k: nat)
    requires k >= 1
    ensures 0 <= c / Two(k) <= c && (c > 0 ==> c / Two(k) < c)
  {
    hide Two;
    TwoMono(1, k);
    Powers();
    if c > 0 {
      MulLe(c, 2, Two(k));
      QuotientFits(c, Two(k), c);
    } else {
      QuotientFits(0, Two(k), 1);
    }
  }

  /** All characters up to the point where nothing is left. */
  function DecodeAll(c: nat): seq<nat>
    requires WellFormed(TREE)
    decreases c
  {
    if c == 0 then [] else (WalkSmaller(TREE, c); [Walk(TREE, c).0] + DecodeAll(Walk(TREE, c).1))
  }

  /** Decoding stops exactly at the end of the name, because no code is zero. */
  lemma {:induction false} DecodeCode(s: seq<nat>)
    requires forall c <- s :: Admitted(c)
    ensures WellFormed(TREE) && DecodeAll(Code(s)) == s
  {
    hide HuffTable;
    hide Two;
    hide Walk;
    hide WalkCode;
    TreesWellFormed();
    if s != [] {
      var e, rest := HuffTable(s[0]), Code(s[1..]);
      TableMatchesTree(s[0]);
      CodeIsRead(TREE, e.bits, e.len, rest, Code(s));
      MulLe(Two(e.len), 0, rest);
      DecodeCode(s[1..]);
      assert s == [s[0]] + s[1..];
    }
  }

  /** Two names share an immediate only when they are the same name. */
  lemma PackingInjective(s: seq<nat>, t: seq<nat>)
    requires Packable(s) && Packable(t)
    requires Code(s) * IMMEDIATE_UNIT + ISYMBOL_TAG == Code(t) * IMMEDIATE_UNIT + ISYMBOL_TAG
    ensures s == t
  {
    hide Code;
    Powers();
    DecodeCode(s);
    DecodeCode(t);
  }

  /** Write out an immediate symbol. */
  method Print(obj: nat) returns (out: seq<nat>)
    requires WellFormed(TREE)
    ensures out == DecodeAll(obj / IMMEDIATE_UNIT)
  {
    hide Walk;
    hide Two;
    var c: nat := obj / IMMEDIATE_UNIT;
    out := [];
    while c != 0
      invariant out + DecodeAll(c) == DecodeAll(obj / IMMEDIATE_UNIT)
      decreases c
    {
      WalkSmaller(TREE, c);
      var res;
      ghost var before := c;
      res, c := Unhuff(c);
      assert out + DecodeAll(before) == out + [res] + DecodeAll(c);
      out := out + [res];
    }
  }

  /** Printing an interned name gives the name. */
  method InternThenPrint(s: seq<nat>) returns (out: seq<nat>)
    requires Packable(s)
    ensures out == s
  {
    hide Code;
    TreesWellFormed();
    var r := Intern(s);
    Powers();
    DecodeCode(s);
    out := Print(r.value);
  }
}
