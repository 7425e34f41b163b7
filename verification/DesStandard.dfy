/** What makes the cipher the Data Encryption Standard (FIPS 46-3) and no other one: the property by which its
  designers chose the boxes, the recurrence of its rounds, and the worked example of a round and of its keys.

  What a permutation does to a word is also given in arithmetic here, four digits at a time, so that it can be
  calculated.
*/
module DesStandard {
  import opened Bits
  import opened Bytes
  import opened Crc
  import opened DesTables
  import opened Des
  import opened Stream

  // ----- The boxes -----

  // A value is at no other place of a row from d on, counting every second one of four.
  predicate NotThere(v: nat, row: seq<nat>, d: nat)
    requires d + 6 < |row|
  {
    v != row[d] && v != row[d + 2] && v != row[d + 4] && v != row[d + 6]
  }

  predicate Apart(a: seq<nat>, c: nat, b: seq<nat>, d: nat)
    requires c + 6 < |a| && d + 6 < |b|
  {
    NotThere(a[c], b, d) && NotThere(a[c + 2], b, d) && NotThere(a[c + 4], b, d) && NotThere(a[c + 6], b, d)
  }

  // Columns that differ in their upper bit and agree in the lowest hold different values in the two rows.
  predicate RowsApart(a: seq<nat>, b: seq<nat>) {
    |a| == |b| == 16 && Apart(a, 0, b, 8) && Apart(a, 1, b, 9) && Apart(a, 8, b, 0) && Apart(a, 9, b, 1)
  }

  predicate WellChosen(rows: seq<seq<nat>>) {
    |rows| == 4 && RowsApart(rows[0], rows[2]) && RowsApart(rows[1], rows[3])
  }

  lemma Box1()
    ensures WellChosen(SBOX1)
  {
  }

  lemma Box2()
    ensures WellChosen(SBOX2)
  {
  }

  lemma Box3()
    ensures WellChosen(SBOX3)
  {
  }

  lemma Box4()
    ensures WellChosen(SBOX4)
  {
  }

  lemma Box5()
    ensures WellChosen(SBOX5)
  {
  }

  lemma Box6()
    ensures WellChosen(SBOX6)
  {
  }

  lemma Box7()
    ensures WellChosen(SBOX7)
  {
  }

  lemma Box8()
    ensures WellChosen(SBOX8)
  {
  }

  lemma BoxWellChosen(i: nat)
    requires i < 8
    ensures WellChosen(SBox(i))
  {
    hide SBOX1, SBOX2, SBOX3, SBOX4, SBOX5, SBOX6, SBOX7, SBOX8, WellChosen;
    Box1();
    Box2();
    Box3();
    Box4();
    Box5();
    Box6();
    Box7();
    Box8();
  }

  lemma ColumnsApart(a: seq<nat>, b: seq<nat>, c: nat, d: nat)
    requires RowsApart(a, b)
    requires c < 16 && d < 16 && c % 2 == d % 2 && c / 8 + d / 8 == 1
    ensures a[c] != b[d]
  {
  }

  function BoxAt(i: nat, r: nat, c: nat): nat
    requires i < 8 && r < 4 && c < 16
  {
    hide SBox;
    SBox(i)[r][c]
  }

  lemma EntriesApart(i: nat, r: nat, c: nat, d: nat)
    requires i < 8 && r < 2
    requires c < 16 && d < 16 && c % 2 == d % 2 && c / 8 + d / 8 == 1
    ensures BoxAt(i, r, c) != BoxAt(i, 2 + r, d)
  {
    hide SBox, RowsApart;
    BoxWellChosen(i);
    ColumnsApart(SBox(i)[r], SBox(i)[2 + r], c, d);
  }

  // The criterion the boxes were chosen by: inputs whose first two bits are opposite and whose last two bits agree have
  // different outputs.
  lemma SubstitutesDiffer(i: nat, x: nat, y: nat)
    requires i < 8 && x < 64 && y < 64
    requires x / 16 + y / 16 == 3 && x % 4 == y % 4
    ensures Substitute(i, x) != Substitute(i, y)
  {
    hide Substitute;
    if x < 32 {
      SubstitutesDifferUpper(i, x, y);
    } else {
      SubstitutesDifferUpper(i, y, x);
    }
  }

  lemma SubstitutesDifferUpper(i: nat, x: nat, y: nat)
    requires i < 8 && x < 32 && y < 64
    requires x / 16 + y / 16 == 3 && x % 4 == y % 4
    ensures Substitute(i, x) != Substitute(i, y)
  {
    hide Substitute;
    Parts(x);
    Parts(y);
    var b := x / 16;
    assert y / 16 % 2 == 1 - b && y / 32 == 1 && y / 2 % 2 == x / 2 % 2 by {
      assert y / 16 == 3 - b;
      assert y / 16 / 2 == y / 32;
      assert y / 2 % 2 == y % 4 / 2 && x / 2 % 2 == x % 4 / 2;
    }
    OppositeCells(i, b, x / 4 % 4, y / 4 % 4, x / 2 % 2, x % 2);
  }

  lemma OppositeCells(i: nat, b: nat, c: nat, c': nat, d: nat, e: nat)
    requires i < 8 && b < 2 && c < 4 && c' < 4 && d < 2 && e < 2
    ensures Substitute(i, 16 * b + 4 * c + 2 * d + e) != Substitute(i, 32 + 16 * (1 - b) + 4 * c' + 2 * d + e)
  {
    hide BoxAt, Substitute;
    Cell(i, 16 * b + 4 * c + 2 * d + e, 0, b, c, d, e);
    Cell(i, 32 + 16 * (1 - b) + 4 * c' + 2 * d + e, 1, 1 - b, c', d, e);
    EntriesApart(i, e, 8 * b + 2 * c + d, 8 * (1 - b) + 2 * c' + d);
  }

  // The outer two digits of a sextet are the row, the inner four the column.
  lemma Cell(i: nat, x: nat, a: nat, b: nat, c: nat, d: nat, e: nat)
    requires i < 8 && a < 2 && b < 2 && c < 4 && d < 2 && e < 2
    requires x == 32 * a + 16 * b + 4 * c + 2 * d + e
    ensures Substitute(i, x) == BoxAt(i, 2 * a + e, 8 * b + 2 * c + d)
  {
    hide SBox;
    assert x / 32 == a && x / 2 % 16 == 8 * b + 2 * c + d && x % 2 == e;
  }

  lemma Parts(x: nat)
    requires x < 64
    ensures x == 32 * (x / 32) + 16 * (x / 16 % 2) + 4 * (x / 4 % 4) + 2 * (x / 2 % 2) + x % 2
  {
    assert x / 2 / 2 == x / 4 && x / 4 / 4 == x / 16 && x / 16 / 2 == x / 32;
  }

  // ----- Digits and their weights -----

  // The digit of a word whose weight is p.
  function Digit(x: nat, p: nat): (d: nat)
    requires 0 < p
    ensures d <= 1
  {
    x / p % 2
  }

  // Four digits of a word.
  function Four(x: nat, p: nat, q: nat, r: nat, s: nat): (n: nat)
    requires 0 < p && 0 < q && 0 < r && 0 < s
    ensures n < 16
  {
    8 * Digit(x, p) + 4 * Digit(x, q) + 2 * Digit(x, r) + Digit(x, s)
  }

  lemma {:induction false} BitIsDigit(x: nat, k: nat)
    ensures Bit(x, k) <==> Digit(x, Pow2(k)) == 1
  {
    if k != 0 {
      BitIsDigit(x / 2, k - 1);
      HalfOf(x, Pow2(k - 1));
    }
  }

  lemma HalfOf(x: nat, p: nat)
    requires 0 < p
    ensures x / 2 / p == x / (2 * p)
  {
    var q, r := x / 2 / p, x / 2 % p;
    assert x / 2 == q * p + r;
    assert x == q * (2 * p) + (2 * r + x % 2);
    SplitUnique(q, 2 * r + x % 2, 2 * p);
  }

  lemma PermuteNext(rows: seq<seq<nat>>, columns: nat, width: nat, n: nat, x: nat, p: nat)
    requires Table(rows, columns, width) && n < |rows| * columns
    requires p == Pow2(width - Listed(rows, columns, width, n))
    ensures Permute(rows, columns, width, n + 1, x) == 2 * Permute(rows, columns, width, n, x) + Digit(x, p)
  {
    hide Listed, Pow2, Bit;
    BitIsDigit(x, width - Listed(rows, columns, width, n));
  }

  lemma PermuteFour(rows: seq<seq<nat>>, columns: nat, width: nat, n: nat, x: nat)
    requires Table(rows, columns, width) && n + 4 <= |rows| * columns
    ensures Permute(rows, columns, width, n + 4, x) == 16 * Permute(rows, columns, width, n, x)
      + Four(x, Pow2(width - Listed(rows, columns, width, n)), Pow2(width - Listed(rows, columns, width, n + 1)),
             Pow2(width - Listed(rows, columns, width, n + 2)), Pow2(width - Listed(rows, columns, width, n + 3)))
  {
    hide Listed, Pow2, Permute, Digit, Table;
    PermuteNext(rows, columns, width, n, x, Pow2(width - Listed(rows, columns, width, n)));
    PermuteNext(rows, columns, width, n + 1, x, Pow2(width - Listed(rows, columns, width, n + 1)));
    PermuteNext(rows, columns, width, n + 2, x, Pow2(width - Listed(rows, columns, width, n + 2)));
    PermuteNext(rows, columns, width, n + 3, x, Pow2(width - Listed(rows, columns, width, n + 3)));
  }

  lemma PermuteNone(rows: seq<seq<nat>>, columns: nat, width: nat, x: nat)
    requires Table(rows, columns, width)
    ensures Permute(rows, columns, width, 0, x) == 0
  {
  }

  // The weights of the digits of a word.
  ghost predicate Weights() {
    && Pow2(0) == 1 && Pow2(1) == 2 && Pow2(2) == 4 && Pow2(3) == 8
    && Pow2(4) == 0x10 && Pow2(5) == 0x20 && Pow2(6) == 0x40 && Pow2(7) == 0x80
    && Pow2(8) == 0x100 && Pow2(9) == 0x200 && Pow2(10) == 0x400 && Pow2(11) == 0x800
    && Pow2(12) == 0x1000 && Pow2(13) == 0x2000 && Pow2(14) == 0x4000 && Pow2(15) == 0x8000
    && Pow2(16) == 0x1_0000 && Pow2(17) == 0x2_0000 && Pow2(18) == 0x4_0000 && Pow2(19) == 0x8_0000
    && Pow2(20) == 0x10_0000 && Pow2(21) == 0x20_0000 && Pow2(22) == 0x40_0000 && Pow2(23) == 0x80_0000
    && Pow2(24) == 0x100_0000 && Pow2(25) == 0x200_0000 && Pow2(26) == 0x400_0000 && Pow2(27) == 0x800_0000
    && Pow2(28) == 0x1000_0000 && Pow2(29) == 0x2000_0000 && Pow2(30) == 0x4000_0000 && Pow2(31) == 0x8000_0000
    && Pow2(32) == 0x1_0000_0000 && Pow2(33) == 0x2_0000_0000 && Pow2(34) == 0x4_0000_0000 && Pow2(35) == 0x8_0000_0000
    && Pow2(36) == 0x10_0000_0000 && Pow2(37) == 0x20_0000_0000
    && Pow2(38) == 0x40_0000_0000 && Pow2(39) == 0x80_0000_0000
    && Pow2(40) == 0x100_0000_0000 && Pow2(41) == 0x200_0000_0000
    && Pow2(42) == 0x400_0000_0000 && Pow2(43) == 0x800_0000_0000
    && Pow2(44) == 0x1000_0000_0000 && Pow2(45) == 0x2000_0000_0000
    && Pow2(46) == 0x4000_0000_0000 && Pow2(47) == 0x8000_0000_0000
    && Pow2(48) == 0x1_0000_0000_0000 && Pow2(49) == 0x2_0000_0000_0000
    && Pow2(50) == 0x4_0000_0000_0000 && Pow2(51) == 0x8_0000_0000_0000
    && Pow2(52) == 0x10_0000_0000_0000 && Pow2(53) == 0x20_0000_0000_0000
    && Pow2(54) == 0x40_0000_0000_0000 && Pow2(55) == 0x80_0000_0000_0000
    && Pow2(56) == 0x100_0000_0000_0000 && Pow2(57) == 0x200_0000_0000_0000
    && Pow2(58) == 0x400_0000_0000_0000 && Pow2(59) == 0x800_0000_0000_0000
    && Pow2(60) == 0x1000_0000_0000_0000 && Pow2(61) == 0x2000_0000_0000_0000
    && Pow2(62) == 0x4000_0000_0000_0000 && Pow2(63) == 0x8000_0000_0000_0000
  }

  lemma Weighed()
    ensures Weights()
  {
    hide Pow2;
    Pow2Zero();
    FourMore(0);
    FourMore(4);
    FourMore(8);
    FourMore(12);
    FourMore(16);
    FourMore(20);
    FourMore(24);
    FourMore(28);
    FourMore(32);
    FourMore(36);
    FourMore(40);
    FourMore(44);
    FourMore(48);
    FourMore(52);
    FourMore(56);
    FourMore(60);
  }

  lemma FourMore(k: nat)
    ensures Pow2(k + 1) == 2 * Pow2(k) && Pow2(k + 2) == 4 * Pow2(k) && Pow2(k + 3) == 8 * Pow2(k)
    ensures Pow2(k + 4) == 16 * Pow2(k)
  {
    assert Pow2(k + 2) == 2 * Pow2(k + 1) && Pow2(k + 4) == 2 * Pow2(k + 3);
  }

  // ----- The permutations in arithmetic -----

  function Hex4(a: nat, b: nat, c: nat, d: nat): nat { 0x1000 * a + 0x100 * b + 0x10 * c + d }

  function Expanded(x: nat): nat {
    0x1_0000_0000 * Hex4(Four(x, 1, 0x8000_0000, 0x4000_0000, 0x2000_0000),
           Four(x, 0x1000_0000, 0x800_0000, 0x1000_0000, 0x800_0000),
           Four(x, 0x400_0000, 0x200_0000, 0x100_0000, 0x80_0000),
           Four(x, 0x100_0000, 0x80_0000, 0x40_0000, 0x20_0000))
    + 0x1_0000 * Hex4(Four(x, 0x10_0000, 0x8_0000, 0x10_0000, 0x8_0000),
           Four(x, 0x4_0000, 0x2_0000, 0x1_0000, 0x8000),
           Four(x, 0x1_0000, 0x8000, 0x4000, 0x2000),
           Four(x, 0x1000, 0x800, 0x1000, 0x800))
    + Hex4(Four(x, 0x400, 0x200, 0x100, 0x80),
           Four(x, 0x100, 0x80, 0x40, 0x20),
           Four(x, 0x10, 8, 0x10, 8),
           Four(x, 4, 2, 1, 0x8000_0000))
  }

  lemma ExpandedIs(x: nat)
    requires Weights() && Table(E, 6, 32) && |E| == 8
    ensures Permute(E, 6, 32, 48, x) == Expanded(x)
  {
    hide Pow2, Permute, Four, Table;
    PermuteNone(E, 6, 32, x);
    PermuteFour(E, 6, 32, 0, x);
    PermuteFour(E, 6, 32, 4, x);
    PermuteFour(E, 6, 32, 8, x);
    PermuteFour(E, 6, 32, 12, x);
    PermuteFour(E, 6, 32, 16, x);
    PermuteFour(E, 6, 32, 20, x);
    PermuteFour(E, 6, 32, 24, x);
    PermuteFour(E, 6, 32, 28, x);
    PermuteFour(E, 6, 32, 32, x);
    PermuteFour(E, 6, 32, 36, x);
    PermuteFour(E, 6, 32, 40, x);
    PermuteFour(E, 6, 32, 44, x);
  }

  function Mixed(x: nat): nat {
    0x1_0000 * Hex4(Four(x, 0x1_0000, 0x200_0000, 0x1000, 0x800),
           Four(x, 8, 0x10_0000, 0x10, 0x8000),
           Four(x, 0x8000_0000, 0x2_0000, 0x200, 0x40),
           Four(x, 0x800_0000, 0x4000, 2, 0x40_0000))
    + Hex4(Four(x, 0x4000_0000, 0x100_0000, 0x100, 0x4_0000),
           Four(x, 1, 0x20, 0x2000_0000, 0x80_0000),
           Four(x, 0x2000, 0x8_0000, 4, 0x400_0000),
           Four(x, 0x400, 0x20_0000, 0x1000_0000, 0x80))
  }

  lemma MixedIs(x: nat)
    requires Weights() && Table(P, 4, 32) && |P| == 8
    ensures Permute(P, 4, 32, 32, x) == Mixed(x)
  {
    hide Pow2, Permute, Four, Table;
    PermuteNone(P, 4, 32, x);
    PermuteFour(P, 4, 32, 0, x);
    PermuteFour(P, 4, 32, 4, x);
    PermuteFour(P, 4, 32, 8, x);
    PermuteFour(P, 4, 32, 12, x);
    PermuteFour(P, 4, 32, 16, x);
    PermuteFour(P, 4, 32, 20, x);
    PermuteFour(P, 4, 32, 24, x);
    PermuteFour(P, 4, 32, 28, x);
  }

  function Chosen(x: nat): nat {
    0x100_0000_0000 * Hex4(Four(x, 0x80, 0x8000, 0x80_0000, 0x8000_0000),
           Four(x, 0x80_0000_0000, 0x8000_0000_0000, 0x80_0000_0000_0000, 0x8000_0000_0000_0000),
           Four(x, 0x40, 0x4000, 0x40_0000, 0x4000_0000),
           Four(x, 0x40_0000_0000, 0x4000_0000_0000, 0x40_0000_0000_0000, 0x4000_0000_0000_0000))
    + 0x100_0000 * Hex4(Four(x, 0x20, 0x2000, 0x20_0000, 0x2000_0000),
           Four(x, 0x20_0000_0000, 0x2000_0000_0000, 0x20_0000_0000_0000, 0x2000_0000_0000_0000),
           Four(x, 0x10, 0x1000, 0x10_0000, 0x1000_0000),
           Four(x, 2, 0x200, 0x2_0000, 0x200_0000))
    + 0x100 * Hex4(Four(x, 0x2_0000_0000, 0x200_0000_0000, 0x2_0000_0000_0000, 0x200_0000_0000_0000),
           Four(x, 4, 0x400, 0x4_0000, 0x400_0000),
           Four(x, 0x4_0000_0000, 0x400_0000_0000, 0x4_0000_0000_0000, 0x400_0000_0000_0000),
           Four(x, 8, 0x800, 0x8_0000, 0x800_0000))
    + 0x10 * Four(x, 0x8_0000_0000, 0x800_0000_0000, 0x8_0000_0000_0000, 0x800_0000_0000_0000)
    + Four(x, 0x10_0000_0000, 0x1000_0000_0000, 0x10_0000_0000_0000, 0x1000_0000_0000_0000)
  }

  lemma ChosenIs(x: nat)
    requires Weights() && Table(PC1, 7, 64) && |PC1| == 8
    ensures Permute(PC1, 7, 64, 56, x) == Chosen(x)
  {
    hide Pow2, Permute, Four, Table;
    PermuteNone(PC1, 7, 64, x);
    PermuteFour(PC1, 7, 64, 0, x);
    PermuteFour(PC1, 7, 64, 4, x);
    PermuteFour(PC1, 7, 64, 8, x);
    PermuteFour(PC1, 7, 64, 12, x);
    PermuteFour(PC1, 7, 64, 16, x);
    PermuteFour(PC1, 7, 64, 20, x);
    PermuteFour(PC1, 7, 64, 24, x);
    PermuteFour(PC1, 7, 64, 28, x);
    PermuteFour(PC1, 7, 64, 32, x);
    PermuteFour(PC1, 7, 64, 36, x);
    PermuteFour(PC1, 7, 64, 40, x);
    PermuteFour(PC1, 7, 64, 44, x);
    PermuteFour(PC1, 7, 64, 48, x);
    PermuteFour(PC1, 7, 64, 52, x);
  }

  function ChosenAgain(x: nat): nat {
    0x1_0000_0000 * Hex4(Four(x, 0x400_0000_0000, 0x80_0000_0000, 0x2000_0000_0000, 0x1_0000_0000),
           Four(x, 0x80_0000_0000_0000, 0x8_0000_0000_0000, 0x20_0000_0000_0000, 0x1000_0000),
           Four(x, 0x200_0000_0000, 0x4_0000_0000_0000, 0x8_0000_0000, 0x4000_0000_0000),
           Four(x, 0x2_0000_0000, 0x20_0000_0000, 0x1000_0000_0000, 0x10_0000_0000_0000))
    + 0x1_0000 * Hex4(Four(x, 0x4000_0000, 0x1_0000_0000_0000, 0x100_0000_0000, 0x2_0000_0000_0000),
           Four(x, 0x2000_0000, 0x10_0000_0000, 0x800_0000_0000, 0x40_0000_0000_0000),
           Four(x, 0x8000, 0x10, 0x200_0000, 0x8_0000),
           Four(x, 0x200, 2, 0x400_0000, 0x1_0000))
    + Hex4(Four(x, 0x20, 0x800, 0x80_0000, 0x100),
           Four(x, 0x1000, 0x80, 0x2_0000, 1),
           Four(x, 0x40_0000, 8, 0x400, 0x4000),
           Four(x, 0x40, 0x10_0000, 0x800_0000, 0x100_0000))
  }

  lemma ChosenAgainIs(x: nat)
    requires Weights() && Table(PC2, 8, 56) && |PC2| == 6
    ensures Permute(PC2, 8, 56, 48, x) == ChosenAgain(x)
  {
    hide Pow2, Permute, Four, Table;
    PermuteNone(PC2, 8, 56, x);
    PermuteFour(PC2, 8, 56, 0, x);
    PermuteFour(PC2, 8, 56, 4, x);
    PermuteFour(PC2, 8, 56, 8, x);
    PermuteFour(PC2, 8, 56, 12, x);
    PermuteFour(PC2, 8, 56, 16, x);
    PermuteFour(PC2, 8, 56, 20, x);
    PermuteFour(PC2, 8, 56, 24, x);
    PermuteFour(PC2, 8, 56, 28, x);
    PermuteFour(PC2, 8, 56, 32, x);
    PermuteFour(PC2, 8, 56, 36, x);
    PermuteFour(PC2, 8, 56, 40, x);
    PermuteFour(PC2, 8, 56, 44, x);
  }

  // ----- Shifts in arithmetic -----

  lemma {:induction false} ShrIs(x: nat, n: nat)
    ensures Shr(x, n) == x / Pow2(n)
  {
    if n != 0 {
      ShrIs(x / 2, n - 1);
      HalfOf(x, Pow2(n - 1));
    }
  }

  lemma {:induction false} ShlIs(x: nat, n: nat)
    ensures Shl(x, n) == x * Pow2(n)
  {
    if n != 0 {
      ShlIs(x, n - 1);
    }
  }

  lemma RestOfHalf(x: nat, p: nat)
    requires 0 < p
    ensures x % (2 * p) == 2 * (x / 2 % p) + x % 2
  {
    var q, r := x / 2 / p, x / 2 % p;
    assert x / 2 == q * p + r;
    assert x == q * (2 * p) + (2 * r + x % 2);
    SplitUnique(q, 2 * r + x % 2, 2 * p);
  }

  lemma {:induction false} LowIs(x: nat, n: nat)
    ensures Low(x, n) == x % Pow2(n)
  {
    if n != 0 {
      LowIs(x / 2, n - 1);
      RestOfHalf(x, Pow2(n - 1));
    }
  }

  lemma SextetIs(e: nat, i: nat, p: nat)
    requires i < 8 && Pow2(42 - 6 * i) == p
    ensures Sextet(e, i) == e / p % 64
  {
    ShrIs(e, 42 - 6 * i);
    LowIs(Shr(e, 42 - 6 * i), 6);
    assert Pow2(6) == 64;
  }

  lemma BoxesInOrder()
    ensures SBox(0) == SBOX1 && SBox(1) == SBOX2 && SBox(2) == SBOX3 && SBox(3) == SBOX4
    ensures SBox(4) == SBOX5 && SBox(5) == SBOX6 && SBox(6) == SBOX7 && SBox(7) == SBOX8
  {
    hide SBOX1, SBOX2, SBOX3, SBOX4, SBOX5, SBOX6, SBOX7, SBOX8;
  }

  // What is left of a shifted word in a window.
  lemma ShiftedRest(v: nat, p: nat, q: nat)
    requires 0 < p && 0 < q
    ensures v * p % (p * q) == v % q * p
  {
    var h, r := v / q, v % q;
    ShiftedParts(h, r, p, q);
    assert v == h * q + r;
    assert r * p < p * q by {
      MulMono(r, q - 1, p);
      assert (q - 1) * p + p == p * q;
    }
    SplitUnique(h, r * p, p * q);
  }

  lemma ShiftedParts(h: nat, r: nat, p: nat, q: nat)
    ensures (h * q + r) * p == h * (p * q) + r * p
  {
  }

  // A rotation moves the upper digits below the lower ones.
  lemma RotatedIs(v: nat, n: nat, p: nat, q: nat)
    requires n <= 28 && Pow2(28) == p * q && Pow2(n) == p && Pow2(28 - n) == q && v < p * q
    ensures RotateLeft(v, n, 28) == v % q * p + v / q
  {
    hide Pow2, Low, Shl, Shr, Or;
    ShlIs(v, n);
    LowIs(Shl(v, n), 28);
    ShrIs(v, 28 - n);
    ShiftedRest(v, p, q);
    DivBound(v, q, p);
    OrDisjoint(v % q, v / q, n);
  }

  lemma JoinedIs(c: nat, d: nat)
    requires d < Pow2(28)
    ensures Or(Shl(c, 28), d) == c * Pow2(28) + d
  {
    hide Pow2, Shl, Or;
    ShlIs(c, 28);
    OrDisjoint(c, d, 28);
  }

  // ----- The worked example of a round -----

  lemma ExampleExpanded1()
    ensures Four(0xF0AA_F0AA, 1, 0x8000_0000, 0x4000_0000, 0x2000_0000) == 7
    ensures Four(0xF0AA_F0AA, 0x1000_0000, 0x800_0000, 0x1000_0000, 0x800_0000) == 10
    ensures Four(0xF0AA_F0AA, 0x400_0000, 0x200_0000, 0x100_0000, 0x80_0000) == 1
    ensures Four(0xF0AA_F0AA, 0x100_0000, 0x80_0000, 0x40_0000, 0x20_0000) == 5
  {
  }

  lemma ExampleExpanded2()
    ensures Four(0xF0AA_F0AA, 0x10_0000, 0x8_0000, 0x10_0000, 0x8_0000) == 5
    ensures Four(0xF0AA_F0AA, 0x4_0000, 0x2_0000, 0x1_0000, 0x8000) == 5
    ensures Four(0xF0AA_F0AA, 0x1_0000, 0x8000, 0x4000, 0x2000) == 7
    ensures Four(0xF0AA_F0AA, 0x1000, 0x800, 0x1000, 0x800) == 10
  {
  }

  lemma ExampleExpanded3()
    ensures Four(0xF0AA_F0AA, 0x400, 0x200, 0x100, 0x80) == 1
    ensures Four(0xF0AA_F0AA, 0x100, 0x80, 0x40, 0x20) == 5
    ensures Four(0xF0AA_F0AA, 0x10, 8, 0x10, 8) == 5
    ensures Four(0xF0AA_F0AA, 4, 2, 1, 0x8000_0000) == 5
  {
  }

  lemma ExampleDigits1()
    ensures XorHex(0x7, 0x1) == 0x6
    ensures XorHex(0xA, 0xB) == 0x1
    ensures XorHex(0x1, 0x0) == 0x1
    ensures XorHex(0x5, 0x2) == 0x7
  {
    hide Xor;
    XorBits(0, 1, 1, 1, 0, 0, 0, 1);
    XorBits(1, 0, 1, 0, 1, 0, 1, 1);
    XorBits(0, 0, 0, 1, 0, 0, 0, 0);
    XorBits(0, 1, 0, 1, 0, 0, 1, 0);
  }

  lemma ExampleDigits2()
    ensures XorHex(0x5, 0xE) == 0xB
    ensures XorHex(0x5, 0xF) == 0xA
    ensures XorHex(0x7, 0xF) == 0x8
    ensures XorHex(0xA, 0xC) == 0x6
  {
    hide Xor;
    XorBits(0, 1, 0, 1, 1, 1, 1, 0);
    XorBits(0, 1, 0, 1, 1, 1, 1, 1);
    XorBits(0, 1, 1, 1, 1, 1, 1, 1);
    XorBits(1, 0, 1, 0, 1, 1, 0, 0);
  }

  lemma ExampleDigits3()
    ensures XorHex(0x1, 0x7) == 0x6
    ensures XorHex(0x5, 0x0) == 0x5
    ensures XorHex(0x5, 0x7) == 0x2
    ensures XorHex(0x5, 0x2) == 0x7
  {
    hide Xor;
    XorBits(0, 0, 0, 1, 0, 1, 1, 1);
    XorBits(0, 1, 0, 1, 0, 0, 0, 0);
    XorBits(0, 1, 0, 1, 0, 1, 1, 1);
    XorBits(0, 1, 0, 1, 0, 0, 1, 0);
  }

  lemma ExampleWords()
    ensures Xor(0x7A15, 0x1B02) == 0x6117
    ensures Xor(0x557A, 0xEFFC) == 0xBA86
    ensures Xor(0x1555, 0x7072) == 0x6527
  {
    hide Xor, XorHex;
    ExampleDigits1();
    XorFourDigits(0x7, 0xA, 0x1, 0x5, 0x1, 0xB, 0x0, 0x2);
    ExampleDigits2();
    XorFourDigits(0x5, 0x5, 0x7, 0xA, 0xE, 0xF, 0xF, 0xC);
    ExampleDigits3();
    XorFourDigits(0x1, 0x5, 0x5, 0x5, 0x7, 0x0, 0x7, 0x2);
  }

  lemma ExampleMixedWithKey()
    ensures Xor(0x7A15_557A_1555, 0x1B02_EFFC_7072) == 0x6117_BA86_6527
  {
    hide Xor, Pow2;
    Pow2Words();
    ExampleWords();
    XorConcat(0x557A, 0x1555, 0xEFFC, 0x7072, 16);
    XorConcat(0x7A15, 0x557A_1555, 0x1B02, 0xEFFC_7072, 32);
  }

  lemma ExampleEntries()
    ensures SBOX1[0][12] == 5
    ensures SBOX2[1][8] == 12
    ensures SBOX3[0][15] == 8
    ensures SBOX4[2][13] == 2
    ensures SBOX5[3][0] == 11
    ensures SBOX6[2][3] == 5
    ensures SBOX7[0][10] == 9
    ensures SBOX8[3][3] == 7
  {
  }

  lemma ExampleBoxes()
    ensures Substitute(0, 24) == 5
    ensures Substitute(1, 17) == 12
    ensures Substitute(2, 30) == 8
    ensures Substitute(3, 58) == 2
    ensures Substitute(4, 33) == 11
    ensures Substitute(5, 38) == 5
    ensures Substitute(6, 20) == 9
    ensures Substitute(7, 39) == 7
  {
    hide SBox, SBOX1, SBOX2, SBOX3, SBOX4, SBOX5, SBOX6, SBOX7, SBOX8;
    BoxesInOrder();
    ExampleEntries();
  }

  lemma ExampleSextets()
    requires Weights()
    ensures Sextet(0x6117_BA86_6527, 0) == 24
    ensures Sextet(0x6117_BA86_6527, 1) == 17
    ensures Sextet(0x6117_BA86_6527, 2) == 30
    ensures Sextet(0x6117_BA86_6527, 3) == 58
    ensures Sextet(0x6117_BA86_6527, 4) == 33
    ensures Sextet(0x6117_BA86_6527, 5) == 38
    ensures Sextet(0x6117_BA86_6527, 6) == 20
    ensures Sextet(0x6117_BA86_6527, 7) == 39
  {
    hide Pow2, Sextet;
    SextetIs(0x6117_BA86_6527, 0, 0x400_0000_0000);
    SextetIs(0x6117_BA86_6527, 1, 0x10_0000_0000);
    SextetIs(0x6117_BA86_6527, 2, 0x4000_0000);
    SextetIs(0x6117_BA86_6527, 3, 0x100_0000);
    SextetIs(0x6117_BA86_6527, 4, 0x4_0000);
    SextetIs(0x6117_BA86_6527, 5, 0x1000);
    SextetIs(0x6117_BA86_6527, 6, 0x40);
    SextetIs(0x6117_BA86_6527, 7, 1);
  }

  lemma ExamplePermuted1()
    ensures Four(0x5C82_B597, 0x1_0000, 0x200_0000, 0x1000, 0x800) == 2
    ensures Four(0x5C82_B597, 8, 0x10_0000, 0x10, 0x8000) == 3
    ensures Four(0x5C82_B597, 0x8000_0000, 0x2_0000, 0x200, 0x40) == 4
    ensures Four(0x5C82_B597, 0x800_0000, 0x4000, 2, 0x40_0000) == 10
  {
  }

  lemma ExamplePermuted2()
    ensures Four(0x5C82_B597, 0x4000_0000, 0x100_0000, 0x100, 0x4_0000) == 10
    ensures Four(0x5C82_B597, 1, 0x20, 0x2000_0000, 0x80_0000) == 9
    ensures Four(0x5C82_B597, 0x2000, 0x8_0000, 4, 0x400_0000) == 11
    ensures Four(0x5C82_B597, 0x400, 0x20_0000, 0x1000_0000, 0x80) == 11
  {
  }

  lemma ExampleOutput()
    requires Weights()
    ensures Substituted(0x6117_BA86_6527, 8) == 0x5C82_B597
  {
    hide Substitute, Sextet, Pow2;
    ExampleBoxes();
    ExampleSextets();
    assert Substituted(0x6117_BA86_6527, 4) == 0x5C82;
  }

  // The first round of the worked example.
  lemma ExampleRound()
    ensures F(0x1B02_EFFC_7072, 0xF0AA_F0AA) == 0x234A_A9BB
  {
    hide Pow2, Four, Permute, Substituted, Xor, Table;
    Tables();
    Weighed();
    ExpandedIs(0xF0AA_F0AA);
    ExampleExpanded1();
    ExampleExpanded2();
    ExampleExpanded3();
    assert Expanded(0xF0AA_F0AA) == 0x7A15_557A_1555;
    ExampleMixedWithKey();
    ExampleOutput();
    MixedIs(0x5C82_B597);
    ExamplePermuted1();
    ExamplePermuted2();
    assert Mixed(0x5C82_B597) == 0x234A_A9BB;
  }

  // ----- The worked example of the keys -----

  const KEY := 0x1334_5779_9BBC_DFF1

  lemma ExampleChosen1()
    ensures Four(KEY, 0x80, 0x8000, 0x80_0000, 0x8000_0000) == 15
    ensures Four(KEY, 0x80_0000_0000, 0x8000_0000_0000, 0x80_0000_0000_0000, 0x8000_0000_0000_0000) == 0
    ensures Four(KEY, 0x40, 0x4000, 0x40_0000, 0x4000_0000) == 12
    ensures Four(KEY, 0x40_0000_0000, 0x4000_0000_0000, 0x40_0000_0000_0000, 0x4000_0000_0000_0000) == 12
  {
  }

  lemma ExampleChosen2()
    ensures Four(KEY, 0x20, 0x2000, 0x20_0000, 0x2000_0000) == 10
    ensures Four(KEY, 0x20_0000_0000, 0x2000_0000_0000, 0x20_0000_0000_0000, 0x2000_0000_0000_0000) == 10
    ensures Four(KEY, 0x10, 0x1000, 0x10_0000, 0x1000_0000) == 15
    ensures Four(KEY, 2, 0x200, 0x2_0000, 0x200_0000) == 5
  {
  }

  lemma ExampleChosen3()
    ensures Four(KEY, 0x2_0000_0000, 0x200_0000_0000, 0x2_0000_0000_0000, 0x200_0000_0000_0000) == 5
    ensures Four(KEY, 4, 0x400, 0x4_0000, 0x400_0000) == 6
    ensures Four(KEY, 0x4_0000_0000, 0x400_0000_0000, 0x4_0000_0000_0000, 0x400_0000_0000_0000) == 6
    ensures Four(KEY, 8, 0x800, 0x8_0000, 0x800_0000) == 7
  {
  }

  lemma ExampleChosen4()
    ensures Four(KEY, 0x8_0000_0000, 0x800_0000_0000, 0x8_0000_0000_0000, 0x800_0000_0000_0000) == 8
    ensures Four(KEY, 0x10_0000_0000, 0x1000_0000_0000, 0x10_0000_0000_0000, 0x1000_0000_0000_0000) == 15
  {
  }

  lemma ExampleKey()
    requires Weights()
    ensures PermutedKey(KEY) == 0xF0_CCAA_F556_678F
  {
    hide Pow2, Four, Permute, Table;
    Tables();
    ChosenIs(KEY);
    ExampleChosen1();
    ExampleChosen2();
    ExampleChosen3();
    ExampleChosen4();
  }

  lemma ExampleHalves(n: nat)
    requires Weights() && n <= 16
    ensures var k := PermutedKey(KEY);
      && TotalRotation(n) <= 28
      && Half(Low(Shr(k, 28), 28), n) == RotateLeft(0xF0C_CAAF, TotalRotation(n), 28)
      && Half(Low(k, 28), n) == RotateLeft(0x556_678F, TotalRotation(n), 28)
  {
    hide Pow2, Low, Shr, Half, RotateLeft, PermutedKey, TotalRotation;
    ExampleKey();
    ShrIs(0xF0_CCAA_F556_678F, 28);
    LowIs(0xF0C_CAAF, 28);
    LowIs(0xF0_CCAA_F556_678F, 28);
    HalfIsOneRotation(0xF0C_CAAF, n);
    HalfIsOneRotation(0x556_678F, n);
  }

  lemma ExampleFirstKeyDigits1()
    ensures Four(0xE1_9955_FAAC_CF1E, 0x400_0000_0000, 0x80_0000_0000, 0x2000_0000_0000, 0x1_0000_0000) == 1
    ensures Four(0xE1_9955_FAAC_CF1E, 0x80_0000_0000_0000, 0x8_0000_0000_0000, 0x20_0000_0000_0000, 0x1000_0000) == 11
    ensures Four(0xE1_9955_FAAC_CF1E, 0x200_0000_0000, 0x4_0000_0000_0000, 0x8_0000_0000, 0x4000_0000_0000) == 0
    ensures Four(0xE1_9955_FAAC_CF1E, 0x2_0000_0000, 0x20_0000_0000, 0x1000_0000_0000, 0x10_0000_0000_0000) == 2
  {
  }

  lemma ExampleFirstKeyDigits2()
    ensures Four(0xE1_9955_FAAC_CF1E, 0x4000_0000, 0x1_0000_0000_0000, 0x100_0000_0000, 0x2_0000_0000_0000) == 14
    ensures Four(0xE1_9955_FAAC_CF1E, 0x2000_0000, 0x10_0000_0000, 0x800_0000_0000, 0x40_0000_0000_0000) == 15
    ensures Four(0xE1_9955_FAAC_CF1E, 0x8000, 0x10, 0x200_0000, 0x8_0000) == 15
    ensures Four(0xE1_9955_FAAC_CF1E, 0x200, 2, 0x400_0000, 0x1_0000) == 12
  {
  }

  lemma ExampleFirstKeyDigits3()
    ensures Four(0xE1_9955_FAAC_CF1E, 0x20, 0x800, 0x80_0000, 0x100) == 7
    ensures Four(0xE1_9955_FAAC_CF1E, 0x1000, 0x80, 0x2_0000, 1) == 0
    ensures Four(0xE1_9955_FAAC_CF1E, 0x40_0000, 8, 0x400, 0x4000) == 7
    ensures Four(0xE1_9955_FAAC_CF1E, 0x40, 0x10_0000, 0x800_0000, 0x100_0000) == 2
  {
  }

  lemma ExampleFirstKey()
    ensures Subkey(KEY, 0) == 0x1B02_EFFC_7072
  {
    hide Pow2, Four, Low, Shr, Shl, Or, Half, Permute, Table, PermutedKey, RotateLeft;
    Tables();
    Weighed();
    ExampleHalves(1);
    assert TotalRotation(1) == 1;
    RotatedIs(0xF0C_CAAF, 1, 2, 0x800_0000);
    RotatedIs(0x556_678F, 1, 2, 0x800_0000);
    JoinedIs(0xE19_955F, 0xAAC_CF1E);
    ChosenAgainIs(0xE1_9955_FAAC_CF1E);
    ExampleFirstKeyDigits1();
    ExampleFirstKeyDigits2();
    ExampleFirstKeyDigits3();
    assert ChosenAgain(0xE1_9955_FAAC_CF1E) == 0x1B02_EFFC_7072;
  }

  lemma ExampleSecondKeyDigits1()
    ensures Four(0xC3_32AB_F559_9E3D, 0x400_0000_0000, 0x80_0000_0000, 0x2000_0000_0000, 0x1_0000_0000) == 7
    ensures Four(0xC3_32AB_F559_9E3D, 0x80_0000_0000_0000, 0x8_0000_0000_0000, 0x20_0000_0000_0000, 0x1000_0000) == 9
    ensures Four(0xC3_32AB_F559_9E3D, 0x200_0000_0000, 0x4_0000_0000_0000, 0x8_0000_0000, 0x4000_0000_0000) == 10
    ensures Four(0xC3_32AB_F559_9E3D, 0x2_0000_0000, 0x20_0000_0000, 0x1000_0000_0000, 0x10_0000_0000_0000) == 14
  {
  }

  lemma ExampleSecondKeyDigits2()
    ensures Four(0xC3_32AB_F559_9E3D, 0x4000_0000, 0x1_0000_0000_0000, 0x100_0000_0000, 0x2_0000_0000_0000) == 13
    ensures Four(0xC3_32AB_F559_9E3D, 0x2000_0000, 0x10_0000_0000, 0x800_0000_0000, 0x40_0000_0000_0000) == 9
    ensures Four(0xC3_32AB_F559_9E3D, 0x8000, 0x10, 0x200_0000, 0x8_0000) == 13
    ensures Four(0xC3_32AB_F559_9E3D, 0x200, 2, 0x400_0000, 0x1_0000) == 11
  {
  }

  lemma ExampleSecondKeyDigits3()
    ensures Four(0xC3_32AB_F559_9E3D, 0x20, 0x800, 0x80_0000, 0x100) == 12
    ensures Four(0xC3_32AB_F559_9E3D, 0x1000, 0x80, 0x2_0000, 1) == 9
    ensures Four(0xC3_32AB_F559_9E3D, 0x40_0000, 8, 0x400, 0x4000) == 14
    ensures Four(0xC3_32AB_F559_9E3D, 0x40, 0x10_0000, 0x800_0000, 0x100_0000) == 5
  {
  }

  lemma ExampleSecondKey()
    ensures Subkey(KEY, 1) == 0x79AE_D9DB_C9E5
  {
    hide Pow2, Four, Low, Shr, Shl, Or, Half, Permute, Table, PermutedKey, RotateLeft;
    Tables();
    Weighed();
    ExampleHalves(2);
    assert TotalRotation(2) == 2;
    RotatedIs(0xF0C_CAAF, 2, 4, 0x400_0000);
    RotatedIs(0x556_678F, 2, 4, 0x400_0000);
    JoinedIs(0xC33_2ABF, 0x559_9E3D);
    ChosenAgainIs(0xC3_32AB_F559_9E3D);
    ExampleSecondKeyDigits1();
    ExampleSecondKeyDigits2();
    ExampleSecondKeyDigits3();
    assert ChosenAgain(0xC3_32AB_F559_9E3D) == 0x79AE_D9DB_C9E5;
  }

  // ----- The order of rotations, rounds and keys -----

  lemma RotationAt(n: nat)
    requires n < 16
    ensures ROTATIONS[n] == if n == 0 || n == 1 || n == 8 || n == 15 then 1 else 2
  {
  }

  // The rows of the initial permutation take every second digit of each byte, the last byte first.
  lemma InitialDigit(x: nat, r: nat, c: nat)
    requires r < 8 && c < 8
    ensures Bit(Initial(x), 63 - 8 * r - c) == Bit(x, if r < 4 then 8 * c + 6 - 2 * r else 8 * c + 15 - 2 * r)
  {
    hide *;
    assert (8 * r + c) / 8 == r && (8 * r + c) % 8 == c;
    InitialBit(x, 8 * r + c);
    InitialEntry(r, c);
  }

  // The halves of a block, before each round and after the last one.
  ghost predicate Halves(keys: RoundKeys, m: nat, encrypt: bool, l: seq<nat>, r: seq<nat>) {
    && |l| == |r| == 17
    && l[0] == Initial(m) / 0x1_0000_0000 && r[0] == Initial(m) % 0x1_0000_0000
    && forall i | 0 <= i < 16 ::
         l[i + 1] == r[i] && r[i + 1] == Xor(l[i], F(if encrypt then keys[i] else keys[15 - i], r[i]))
  }

  // Each round swaps the halves and enciphers one with the key of its turn, the last key first when deciphering, and
  // the right half of the last round comes first in what is permuted to the result.
  lemma BlockFromHalves(keys: RoundKeys, m: nat, encrypt: bool, l: seq<nat>, r: seq<nat>)
    requires Halves(keys, m, encrypt, l, r)
    ensures Crypt(keys, m, encrypt) == Final(r[16] * 0x1_0000_0000 + l[16])
  {
    hide Pow2, F, Xor, Initial, Final, Shr, Shl, Low, Or, Rounds, Reverse;
    var ks: seq<nat> := if encrypt then keys else Reverse(keys);
    Pow2Words();
    ShrIs(Initial(m), 32);
    LowIs(Initial(m), 32);
    HalvesAfter(F, ks, l, r, 16);
    assert ks[..16] == ks;
    FeistelParts(F, ks, m);
    ShlIs(r[16], 32);
    OrDisjoint(r[16], l[16], 32);
  }

  lemma {:induction false} HalvesAfter(f: (nat, nat) -> nat, keys: seq<nat>, l: seq<nat>, r: seq<nat>, n: nat)
    requires |keys| == 16 && |l| == |r| == 17 && n <= 16
    requires forall i | 0 <= i < 16 :: l[i + 1] == r[i] && r[i + 1] == Xor(l[i], f(keys[i], r[i]))
    ensures Rounds(f, keys[..n], l[0], r[0]) == (l[n], r[n])
  {
    hide Xor;
    if n == 0 {
      assert keys[..0] == [];
    } else {
      var k := keys[n - 1];
      HalvesAfter(f, keys, l, r, n - 1);
      assert keys[..n] == keys[..n - 1] + [k];
      RoundsAppend(f, keys[..n - 1], [k], l[0], r[0]);
      assert Rounds(f, [k], l[n - 1], r[n - 1]) == Rounds(f, [k][1..], r[n - 1], Xor(l[n - 1], f(k, r[n - 1])));
    }
  }

  // ----- The bytes of a key -----

  lemma EightBytes(a: byte, b: byte, c: byte, d: byte, e: byte, f: byte, g: byte, h: byte)
    ensures BigEndian([a, b, c, d, e, f, g, h])
         == 0x100_0000_0000_0000 * a + 0x1_0000_0000_0000 * b + 0x100_0000_0000 * c + 0x1_0000_0000 * d
          + 0x100_0000 * e + 0x1_0000 * f + 0x100 * g + h
  {
    assert [a, b, c, d, e, f, g, h] == [a, b, c, d] + [e, f, g, h];
    BigEndianConcat([a, b, c, d], [e, f, g, h]);
    FourBytes(a, b, c, d);
    FourBytes(e, f, g, h);
    Pow2Words();
  }

  lemma FourBytes(a: byte, b: byte, c: byte, d: byte)
    ensures BigEndian([a, b, c, d]) == 0x100_0000 * a + 0x1_0000 * b + 0x100 * c + d
  {
    assert [a, b, c, d][..3] == [a, b, c] && [a, b, c][..2] == [a, b] && [a, b][..1] == [a] && [a][..0] == [];
    assert BigEndian([a]) == a;
    assert BigEndian([a, b]) == 0x100 * a + b;
    assert BigEndian([a, b, c]) == 0x1_0000 * a + 0x100 * b + c;
  }

  // The first byte of a key is its most significant one.
  lemma ExampleSchedule()
    ensures var s := KeySchedule([0x13, 0x34, 0x57, 0x79, 0x9B, 0xBC, 0xDF, 0xF1]);
      s.Single? && s.k[0] == 0x1B02_EFFC_7072 && s.k[1] == 0x79AE_D9DB_C9E5
  {
    hide BigEndian, Subkey;
    EightBytes(0x13, 0x34, 0x57, 0x79, 0x9B, 0xBC, 0xDF, 0xF1);
    ExampleFirstKey();
    ExampleSecondKey();
  }

  // Triple DES enciphers with the first half of the key, deciphers with the second and enciphers with the first, and
  // what it enciphered it deciphers.
  lemma TripleDes(a: seq<byte>, b: seq<byte>, x: nat)
    requires |a| == |b| == 8 && x < Pow2(64)
    ensures var k, k' := Subkeys(BigEndian(a)), Subkeys(BigEndian(b));
      DecryptBlock(KeySchedule(a + b), Crypt(k, Crypt(k', Crypt(k, x, true), false), true)) == x
  {
    hide BigEndian, Subkeys, Crypt, Pow2;
    assert (a + b)[..8] == a && (a + b)[8..] == b;
    BlockRoundTrip(KeySchedule(a + b), x);
  }
}
