/** Unsigned machine words as naturals with explicit widths.

  Bit k of a word is its k-th binary digit, counted from the least significant one.
  Exclusive-or and inclusive-or are defined digit by digit, a left shift is a
  multiplication by a power of two, a right shift a division and a mask with n low
  ones a remainder, which is what the C operators compute on unsigned operands whose
  result fits the width.
*/
module Bits {

  type byte = x: nat | x < 0x100
  type word16 = x: nat | x < 0x1_0000
  type word32 = x: nat | x < 0x1_0000_0000
  type word64 = x: nat | x < 0x1_0000_0000_0000_0000

  function Pow2(n: nat): (p: nat)
    ensures p >= 1
  {
    if n == 0 then 1 else 2 * Pow2(n - 1)
  }

  predicate Bit(x: nat, k: nat) {
    if k == 0 then x % 2 == 1 else Bit(x / 2, k - 1)
  }

  function Xor(a: nat, b: nat): nat
    decreases a + b
  {
    if a == 0 && b == 0 then 0
    else 2 * Xor(a / 2, b / 2) + if a % 2 != b % 2 then 1 else 0
  }

  function Or(a: nat, b: nat): nat
    decreases a + b
  {
    if a == 0 && b == 0 then 0
    else 2 * Or(a / 2, b / 2) + if a % 2 == 1 || b % 2 == 1 then 1 else 0
  }

  // Left shift, right shift and the n low bits.
  function Shl(x: nat, n: nat): nat
    decreases n
  {
    if n == 0 then x else 2 * Shl(x, n - 1)
  }

  function Shr(x: nat, n: nat): nat
    decreases n
  {
    if n == 0 then x else Shr(x / 2, n - 1)
  }

  function Low(x: nat, n: nat): nat
    decreases n
  {
    if n == 0 then 0 else 2 * Low(x / 2, n - 1) + x % 2
  }

  // ----- Powers of two -----

  lemma {:induction false} Pow2Add(m: nat, n: nat)
    ensures Pow2(m + n) == Pow2(m) * Pow2(n)
  {
    if m != 0 {
      Pow2Add(m - 1, n);
      assert Pow2(m + n) == 2 * Pow2(m - 1 + n);
    }
  }

  lemma Pow2Zero()
    ensures Pow2(0) == 1
  {
  }

  lemma MulAtLeast(k: int, p: nat)
    requires k >= 1
    ensures k * p >= p
  {
    assert k * p == (k - 1) * p + p;
  }

  lemma MulMono(a: int, b: int, p: nat)
    requires a <= b
    ensures a * p <= b * p
  {
    assert b * p == a * p + (b - a) * p;
  }

  lemma QuotientUnique(q: int, r: nat, s: int, t: nat, p: nat)
    requires r < p && t < p
    requires q * p + r == s * p + t
    ensures q == s && r == t
  {
    assert (q - s) * p == t - r;
    if q > s {
      MulAtLeast(q - s, p);
    } else if s > q {
      MulAtLeast(s - q, p);
    }
  }

  // The widths that occur.
  lemma Pow2Words()
    ensures Pow2(4) == 0x10
    ensures Pow2(8) == 0x100
    ensures Pow2(16) == 0x1_0000
    ensures Pow2(32) == 0x1_0000_0000
    ensures Pow2(64) == 0x1_0000_0000_0000_0000
  {
    assert Pow2(4) == 0x10;
    hide Pow2;
    Pow2Add(4, 4);
    Pow2Add(8, 8);
    Pow2Add(16, 16);
    Pow2Add(32, 32);
  }

  // A word splits uniquely in its high part and its low part.
  lemma SplitUnique(a: nat, b: nat, p: nat)
    requires b < p
    ensures (a * p + b) / p == a
    ensures (a * p + b) % p == b
  {
    var x := a * p + b;
    QuotientUnique(x / p, x % p, a, b, p);
  }

  lemma DivBound(x: nat, p: nat, q: nat)
    requires 0 < p && x < q * p
    ensures x / p < q
  {
    if q <= x / p {
      MulMono(q, x / p, p);
    }
  }

  // ----- Digits -----

  lemma {:induction false} ZeroBit(k: nat)
    ensures !Bit(0, k)
  {
    if k != 0 {
      ZeroBit(k - 1);
    }
  }

  lemma {:induction false} OrBit(a: nat, b: nat, k: nat)
    ensures Bit(Or(a, b), k) == (Bit(a, k) || Bit(b, k))
  {
    ZeroBit(k);
    if k != 0 {
      OrBit(a / 2, b / 2, k - 1);
    }
  }

  lemma {:induction false} ShlBit(x: nat, n: nat, k: nat)
    ensures Bit(Shl(x, n), k) == (n <= k && Bit(x, k - n))
    decreases n
  {
    if n != 0 && k != 0 {
      ShlBit(x, n - 1, k - 1);
    }
  }

  lemma {:induction false} ShrBit(x: nat, n: nat, k: nat)
    ensures Bit(Shr(x, n), k) == Bit(x, k + n)
    decreases n
  {
    if n != 0 {
      ShrBit(x / 2, n - 1, k);
    }
  }

  lemma {:induction false} LowBit(x: nat, n: nat, k: nat)
    ensures Bit(Low(x, n), k) == (k < n && Bit(x, k))
    decreases n
  {
    if n == 0 {
      ZeroBit(k);
    } else if k != 0 {
      LowBit(x / 2, n - 1, k - 1);
    }
  }

  lemma {:induction false} LowBound(x: nat, n: nat)
    ensures Low(x, n) < Pow2(n)
    decreases n
  {
    if n != 0 {
      LowBound(x / 2, n - 1);
    }
  }

  lemma {:induction false} HighBitsClear(x: nat, n: nat, k: nat)
    requires x < Pow2(n) && n <= k
    ensures !Bit(x, k)
  {
    if n == 0 {
      ZeroBit(k);
    } else {
      HighBitsClear(x / 2, n - 1, k - 1);
    }
  }

  lemma {:induction false} BoundedByBits(x: nat, n: nat)
    requires forall k: nat | n <= k :: !Bit(x, k)
    ensures x < Pow2(n)
    decreases x
  {
    if x != 0 {
      if n == 0 {
        assert !Bit(x, 0);
        forall k: nat ensures !Bit(x / 2, k) {
          assert !Bit(x, k + 1);
        }
        BoundedByBits(x / 2, 0);
      } else {
        forall k: nat | n - 1 <= k ensures !Bit(x / 2, k) {
          assert !Bit(x, k + 1);
        }
        BoundedByBits(x / 2, n - 1);
      }
    }
  }

  // Two words with the same digits are the same word.
  lemma {:induction false} SameBits(a: nat, b: nat)
    requires forall k: nat :: Bit(a, k) == Bit(b, k)
    ensures a == b
    decreases a + b
  {
    assert Bit(a, 0) == Bit(b, 0);
    if a + b != 0 {
      forall k: nat ensures Bit(a / 2, k) == Bit(b / 2, k) {
        assert Bit(a, k + 1) == Bit(b, k + 1);
      }
      SameBits(a / 2, b / 2);
    }
  }

  // The form of SameBits used for words of a known width.
  lemma SameLowBits(a: nat, b: nat, n: nat)
    requires a < Pow2(n) && b < Pow2(n)
    requires forall k: nat | k < n :: Bit(a, k) == Bit(b, k)
    ensures a == b
  {
    forall k: nat ensures Bit(a, k) == Bit(b, k) {
      if n <= k {
        HighBitsClear(a, n, k);
        HighBitsClear(b, n, k);
      }
    }
    SameBits(a, b);
  }

  // ----- Exclusive-or -----

  lemma {:induction false} XorComm(a: nat, b: nat)
    ensures Xor(a, b) == Xor(b, a)
    decreases a + b
  {
    if a + b != 0 {
      XorComm(a / 2, b / 2);
    }
  }

  lemma {:induction false} XorZero(a: nat)
    ensures Xor(a, 0) == a && Xor(0, a) == a
  {
    if a != 0 {
      XorZero(a / 2);
    }
  }

  lemma {:induction false} XorAssoc(a: nat, b: nat, c: nat)
    ensures Xor(Xor(a, b), c) == Xor(a, Xor(b, c))
    decreases a + b + c
  {
    if a + b + c != 0 {
      XorAssoc(a / 2, b / 2, c / 2);
    }
  }

  lemma {:induction false} XorSelf(a: nat)
    ensures Xor(a, a) == 0
  {
    if a != 0 {
      XorSelf(a / 2);
    }
  }

  // Applying the same mask twice restores the word.
  lemma XorCancel(a: nat, b: nat)
    ensures Xor(Xor(a, b), b) == a
    ensures Xor(b, Xor(b, a)) == a
  {
    XorAssoc(a, b, b);
    XorAssoc(b, b, a);
    XorSelf(b);
    XorZero(a);
  }

  lemma {:induction false} XorBound(a: nat, b: nat, n: nat)
    requires a < Pow2(n) && b < Pow2(n)
    ensures Xor(a, b) < Pow2(n)
    decreases n
  {
    if n != 0 {
      XorBound(a / 2, b / 2, n - 1);
    }
  }

  // Exclusive-or works separately on the high part and on the n low bits.
  lemma {:induction false} XorConcat(a: nat, b: nat, c: nat, d: nat, n: nat)
    requires b < Pow2(n) && d < Pow2(n)
    ensures Xor(a * Pow2(n) + b, c * Pow2(n) + d) == Xor(a, c) * Pow2(n) + Xor(b, d)
    decreases n
  {
    if n != 0 {
      var p := Pow2(n - 1);
      XorConcat(a, b / 2, c, d / 2, n - 1);
      XorConcatStep(a, b, c, d, p);
    }
  }

  lemma XorConcatStep(a: nat, b: nat, c: nat, d: nat, p: nat)
    requires Xor(a * p + b / 2, c * p + d / 2) == Xor(a, c) * p + Xor(b / 2, d / 2)
    ensures Xor(a * (2 * p) + b, c * (2 * p) + d) == Xor(a, c) * (2 * p) + Xor(b, d)
  {
    hide *;
    var x, y := a * (2 * p) + b, c * (2 * p) + d;
    HalfSplit(a, b, p);
    HalfSplit(c, d, p);
    XorUnfold(x, y);
    XorUnfold(b, d);
    HalfSplit(Xor(a, c), Xor(b, d), p);
    assert Xor(x, y) / 2 == (Xor(a, c) * (2 * p) + Xor(b, d)) / 2;
  }

  lemma HalfSplit(a: nat, b: nat, p: nat)
    ensures (a * (2 * p) + b) / 2 == a * p + b / 2
    ensures (a * (2 * p) + b) % 2 == b % 2
  {
    assert a * (2 * p) == 2 * (a * p);
  }

  lemma XorJoin(high: nat, low: nat, n: nat)
    requires low < Pow2(n)
    ensures Xor(low, high * Pow2(n)) == high * Pow2(n) + low
  {
    hide *;
    XorConcat(0, low, high, 0, n);
    XorZero(high);
    XorZero(low);
  }

  lemma XorUnfold(a: nat, b: nat)
    ensures Xor(a, b) == 2 * Xor(a / 2, b / 2) + if a % 2 != b % 2 then 1 else 0
  {
  }

  // Digit by digit.
  lemma XorBit(x: nat, y: nat, a: nat, b: nat)
    requires a < 2 && b < 2
    ensures Xor(2 * x + a, 2 * y + b) == 2 * Xor(x, y) + (a + b) % 2
  {
    hide Xor;
    XorUnfold(2 * x + a, 2 * y + b);
  }

  lemma XorBits(a: nat, b: nat, c: nat, d: nat, a': nat, b': nat, c': nat, d': nat)
    requires a < 2 && b < 2 && c < 2 && d < 2 && a' < 2 && b' < 2 && c' < 2 && d' < 2
    ensures Xor(8 * a + 4 * b + 2 * c + d, 8 * a' + 4 * b' + 2 * c' + d')
         == 8 * ((a + a') % 2) + 4 * ((b + b') % 2) + 2 * ((c + c') % 2) + (d + d') % 2
  {
    hide Xor;
    XorZero(0);
    XorBit(0, 0, a, a');
    XorBit(a, a', b, b');
    var x, x' := 2 * a + b, 2 * a' + b';
    XorBit(x, x', c, c');
    var y, y' := 2 * x + c, 2 * x' + c';
    XorBit(y, y', d, d');
    assert 2 * y + d == 8 * a + 4 * b + 2 * c + d && 2 * y' + d' == 8 * a' + 4 * b' + 2 * c' + d';
  }

  // Or of words without a common digit is their sum.
  lemma {:induction false} OrDisjoint(a: nat, b: nat, n: nat)
    requires b < Pow2(n)
    ensures Or(a * Pow2(n), b) == a * Pow2(n) + b
    decreases n
  {
    if n == 0 {
      assert Pow2(0) == 1;
      OrZero(a);
    } else {
      var x := a * Pow2(n);
      assert x == 2 * (a * Pow2(n - 1));
      OrDisjoint(a, b / 2, n - 1);
    }
  }

  // Low digits that only one word has are left alone.
  lemma {:induction false} OrHigh(a: nat, b: nat, c: nat, n: nat)
    requires b < Pow2(n)
    ensures Or(a * Pow2(n) + b, c * Pow2(n)) == Or(a, c) * Pow2(n) + b
    decreases n
  {
    if n != 0 {
      var p := Pow2(n - 1);
      OrHigh(a, b / 2, c, n - 1);
      OrHighStep(a, b, c, p);
    }
  }

  lemma OrHighStep(a: nat, b: nat, c: nat, p: nat)
    requires Or(a * p + b / 2, c * p) == Or(a, c) * p + b / 2
    ensures Or(a * (2 * p) + b, c * (2 * p)) == Or(a, c) * (2 * p) + b
  {
    hide *;
    HalfSplit(a, b, p);
    HalfSplit(c, 0, p);
    OrUnfold(a * (2 * p) + b, c * (2 * p));
    HalfSplit(Or(a, c), b, p);
  }

  lemma OrUnfold(a: nat, b: nat)
    ensures Or(a, b) == 2 * Or(a / 2, b / 2) + if a % 2 == 1 || b % 2 == 1 then 1 else 0
  {
  }

  lemma {:induction false} OrComm(a: nat, b: nat)
    ensures Or(a, b) == Or(b, a)
    decreases a + b
  {
    if a + b != 0 {
      OrComm(a / 2, b / 2);
    }
  }

  lemma {:induction false} OrZero(a: nat)
    ensures Or(a, 0) == a && Or(0, a) == a
  {
    if a != 0 {
      OrZero(a / 2);
    }
  }

  function XorByte(a: byte, b: byte): (r: byte)
    ensures r == Xor(a, b)
  {
    XorBound(a, b, 8);
    Xor(a, b)
  }

  // Bitwise complement of a 32-bit word.
  function Not32(x: word32): word32 { 0xFFFF_FFFF - x }

}
