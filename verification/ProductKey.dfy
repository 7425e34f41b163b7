/** Keys in the forms users type them (tools/lavender/key/pkey25.py and le.py,
  player/src/enc/keyfmt/pkey25.c and le.c) and their expansion to DES keys.
*/
module ProductKey {
  import opened Bits
  import opened Bytes
  import opened Des
  import opened Base24
  import opened Wrappers

  // ----- Expansion: the tool writes the high bits first, the player the low ones -----

  // tools/lavender/cipher/des.py:16-21, for n bytes of seven bits.
  function ExpandParts(num: nat, n: nat): (key: seq<byte>)
    ensures |key| == n
    decreases n
  {
    if n == 0 then [] else ExpandParts(num / 0x80, n - 1) + [WithParity(num % 0x80)]
  }

  function ExpandKey(key: seq<byte>): seq<byte>
    requires |key| == 7 || |key| == 14
  {
    ExpandParts(BigEndian(key), if |key| == 7 then 8 else 16)
  }

  function Swapped(s: seq<byte>): (r: seq<byte>)
    ensures |r| == |s|
  {
    if s == [] then [] else Swapped(s[1..]) + [s[0]]
  }

  lemma {:induction false} SwappedExpansion(num: nat, n: nat)
    ensures Swapped(Expand(num, n)) == ExpandParts(num, n)
    decreases n
  {
    hide WithParity;
    if n != 0 {
      SwappedExpansion(num / 0x80, n - 1);
      assert Expand(num, n)[1..] == Expand(num / 0x80, n - 1);
    }
  }

  lemma {:induction false} ExpandTwoParts(high: nat, low: nat, m: nat, n: nat)
    requires low < Pow2(7 * n)
    ensures ExpandParts(high * Pow2(7 * n) + low, m + n) == ExpandParts(high, m) + ExpandParts(low, n)
    decreases n
  {
    hide WithParity, Pow2;
    if n == 0 {
      Pow2Zero();
      assert ExpandParts(high, m) + [] == ExpandParts(high, m);
    } else {
      PowSeven(n);
      var p := Pow2(7 * (n - 1));
      SevenBits(high, low, p);
      ExpandTwoParts(high, low / 0x80, m, n - 1);
      ExpandStep(high * Pow2(7 * n) + low, m + n);
      ExpandStep(low, n);
      hide ExpandParts;
    }
  }

  lemma ExpandStep(num: nat, n: nat)
    requires n > 0
    ensures ExpandParts(num, n) == ExpandParts(num / 0x80, n - 1) + [WithParity(num % 0x80)]
  {
    hide WithParity;
  }

  lemma PowSeven(n: nat)
    requires n > 0
    ensures Pow2(7 * n) == 0x80 * Pow2(7 * (n - 1))
  {
    assert Pow2(7) == 0x80;
    Pow2Add(7, 7 * (n - 1));
  }

  lemma SevenBits(high: nat, low: nat, p: nat)
    ensures (high * (0x80 * p) + low) / 0x80 == high * p + low / 0x80
    ensures (high * (0x80 * p) + low) % 0x80 == low % 0x80
  {
    assert high * (0x80 * p) == 0x80 * (high * p);
  }

  // A 112-bit key as the player expands it, in two halves with their bytes swapped.
  function PlayerKey(k1: nat, k2: nat): seq<byte> { Swapped(Expand(k1, 8)) + Swapped(Expand(k2, 8)) }

  // Both sides derive the same DES key from the same bytes.
  lemma SameKey(key: seq<byte>)
    requires |key| == 14
    ensures PlayerKey(BigEndian(key[..7]), BigEndian(key[7..])) == ExpandKey(key)
  {
    hide WithParity, Pow2, BigEndian, Expand, ExpandParts;
    var k1, k2 := BigEndian(key[..7]), BigEndian(key[7..]);
    assert key == key[..7] + key[7..];
    BigEndianConcat(key[..7], key[7..]);
    BigEndianBound(key[7..]);
    SwappedExpansion(k1, 8);
    SwappedExpansion(k2, 8);
    ExpandTwoParts(k1, k2, 8, 8);
  }

  // ----- The product key with two mask bits -----

  const BIT55: nat := 0x80_0000_0000_0000
  const BIT56: nat := 0x100_0000_0000_0000
  const BIT57: nat := 0x200_0000_0000_0000

  type key56 = x: nat | x < 0x100_0000_0000_0000

  function Mask(i: nat): key56
    requires i < 4
  {
    if i == 0 then 0 else if i == 1 then 0x55_5555_5555_5555
    else if i == 2 then 0xAA_AAAA_AAAA_AAAA else 0xFF_FFFF_FFFF_FFFF
  }

  // The first mask changes nothing, the second every digit of even weight, the third the others, the last one all.
  lemma MaskDigits(i: nat, k: nat)
    requires i < 4 && k < 56
    ensures Bit(Mask(i), k) <==> if k % 2 == 0 then i == 1 || i == 3 else i == 2 || i == 3
  {
    Repeats(i);
    RepeatedDigit(i, 28, k);
  }

  // Two digits, n times.
  function Repeated(i: nat, n: nat): nat { if n == 0 then 0 else 4 * Repeated(i, n - 1) + i }

  lemma {:induction false} RepeatedDigit(i: nat, n: nat, k: nat)
    requires i < 4 && k < 2 * n
    ensures Bit(Repeated(i, n), k) <==> Bit(i, k % 2)
    decreases n
  {
    var x := Repeated(i, n - 1);
    assert (4 * x + i) / 2 == 2 * x + i / 2 && (2 * x + i / 2) / 2 == x;
    if k >= 2 {
      RepeatedDigit(i, n - 1, k - 2);
    }
  }

  lemma Repeats(i: nat)
    requires i < 4
    ensures Repeated(i, 28) == Mask(i)
  {
    RepeatedFour(i, 0);
    RepeatedFour(i, 4);
    RepeatedFour(i, 8);
    RepeatedFour(i, 12);
    RepeatedFour(i, 16);
    RepeatedFour(i, 20);
    RepeatedFour(i, 24);
    hide Repeated;
  }

  lemma RepeatedFour(i: nat, n: nat)
    ensures Repeated(i, n + 4) == 0x100 * Repeated(i, n) + 0x55 * i
    ensures Repeated(i, 0) == 0
  {
    assert Repeated(i, n + 2) == 16 * Repeated(i, n) + 5 * i;
  }

  lemma KeyWidth()
    ensures Pow2(56) == BIT56 && Pow2(55) == BIT55
  {
    Pow2Words();
    Pow2Add(8, 16);
    Pow2Add(32, 24);
    assert Pow2(56) == 2 * Pow2(55);
  }

  function Masked(k: key56, i: nat): key56
    requires i < 4
  {
    KeyWidth();
    XorBound(k, Mask(i), 56);
    Xor(k, Mask(i))
  }

  // The two numbers printed: X[1..0] K2[55] K1[55..0], and K2[54..0].
  function LeftPart(k1: key56, k2: key56, i: nat): nat
    requires i < 4
  {
    Mask(i) % 4 * BIT57 + Masked(k2, i) / BIT55 * BIT56 + Masked(k1, i)
  }

  function RightPart(k2: key56, i: nat): nat
    requires i < 4
  {
    Masked(k2, i) % BIT55
  }

  lemma PartBounds(k1: key56, k2: key56, i: nat)
    requires i < 4
    ensures LeftPart(k1, k2, i) < 0x800_0000_0000_0000 && RightPart(k2, i) < BIT55
    ensures Mask(i) % 4 == i
  {
    hide Masked;
  }

  function Print(k1: key56, k2: key56, i: nat): seq<char>
    requires i < 4
  {
    PartBounds(k1, k2, i);
    PowerBound(13);
    Format(LeftPart(k1, k2, i), RightPart(k2, i))
  }

  method Decode(src: seq<char>) returns (k1: nat, k2: nat)
    requires |Plain(src)| == 25
    ensures var full := Plain(src);
      Value(full[..13]).Some? && Value(full[13..]).Some? ==>
        (k1, k2) == Unmasked(Value(full[..13]).value, Value(full[13..]).value)
  {
    hide Plain, Value, Xor, Or;
    var k1e, right := DecodeRaw(src);
    var x := Mask(k1e / BIT57 % 4);
    k2 := Or(right, k1e / BIT56 % 2 * BIT55);
    k1 := Xor(k1e % BIT56, x);
    k2 := Xor(k2, x);
  }

  function Unmasked(k1e: nat, right: nat): (nat, nat) {
    var x := Mask(k1e / BIT57 % 4);
    (Xor(k1e % BIT56, x), Xor(Or(right, k1e / BIT56 % 2 * BIT55), x))
  }

  lemma PartsUnmasked(k1: key56, k2: key56, i: nat)
    requires i < 4
    ensures Unmasked(LeftPart(k1, k2, i), RightPart(k2, i)) == (k1, k2)
  {
    hide Xor, Or, Pow2;
    var a, b := Masked(k1, i), Masked(k2, i);
    var left := LeftPart(k1, k2, i);
    PartBounds(k1, k2, i);
    assert left == (i * 2 + b / BIT55) * BIT56 + a;
    assert left / BIT57 % 4 == i && left / BIT56 % 2 == b / BIT55 && left % BIT56 == a;
    KeyWidth();
    OrJoin(b / BIT55, b % BIT55);
    XorCancel(k1, Mask(i));
    XorCancel(k2, Mask(i));
  }

  lemma OrJoin(high: nat, low: nat)
    requires low < BIT55
    ensures Or(low, high * BIT55) == high * BIT55 + low
  {
    hide Or, Pow2;
    KeyWidth();
    OrDisjoint(high, low, 55);
    OrComm(low, high * BIT55);
  }

  // Every key printed with every mask passes the player's check and is read back by it.
  lemma PrintedKeyDecodes(k1: key56, k2: key56, i: nat)
    requires i < 4
    ensures |Print(k1, k2, i)| == 29 && WellFormed(Print(k1, k2, i))
    ensures var full := Plain(Print(k1, k2, i));
      && |full| == 25 && Value(full[..13]).Some? && Value(full[13..]).Some?
      && Unmasked(Value(full[..13]).value, Value(full[13..]).value) == (k1, k2)
  {
    hide Plain, Value, WellFormed, LeftPart, RightPart, Unmasked, Power24;
    PartBounds(k1, k2, i);
    PowerBound(13);
    FormatReads(LeftPart(k1, k2, i), RightPart(k2, i));
    PartsUnmasked(k1, k2, i);
  }

  // ----- 32 local bits and 6 decimal digits -----

  type key24 = x: nat | x < 0x100_0000

  function Rotation(i: nat): (r: nat)
    requires i < 4
    ensures r <= 24
  {
    if i == 0 then 3 else if i == 1 then 7 else if i == 2 then 13 else 19
  }

  lemma Width24()
    ensures Pow2(24) == 0x100_0000
  {
    Pow2Words();
    Pow2Add(8, 16);
  }

  function Rotl24(n: key24, c: nat): key24
    requires c <= 24
  {
    Width24();
    RotatedBound(n, c, 24);
    RotateLeft(n, c, 24)
  }

  // The local word and the number to be dictated, for one of the sixteen rotation pairs.
  function LocalPart(low: key24, high: key24, i: nat): nat
    requires i < 16
  {
    i / 4 * 0x4000_0000 + Rotl24(high, Rotation(i / 4)) % 0x40 * 0x100_0000 + Rotl24(low, Rotation(i % 4))
  }

  function ExternalPart(high: key24, i: nat): nat
    requires i < 16
  {
    i % 4 * 0x4_0000 + Rotl24(high, Rotation(i / 4)) / 0x40
  }

  // The local word has the digits of the low part turned by 3, 7, 13 or 19 places and, above them, six of the high part
  // so turned; the other digits of that are dictated.
  lemma TurnedDigits(low: key24, high: key24, i: nat, k: nat)
    requires i < 16 && k < 24
    ensures var turned := (n: nat) requires n < 4 => [3, 7, 13, 19][n];
      && (Bit(LocalPart(low, high, i) % 0x100_0000, k) <==> Bit(low, (k + 24 - turned(i % 4)) % 24))
      && (Bit(ExternalPart(high, i) % 0x4_0000 * 0x40 + LocalPart(low, high, i) / 0x100_0000 % 0x40, k)
          <==> Bit(high, (k + 24 - turned(i / 4)) % 24))
  {
    hide Bit, Rotl24;
    var a, b := Rotl24(low, Rotation(i % 4)), Rotl24(high, Rotation(i / 4));
    TurnedDigit(low, Rotation(i % 4), k);
    TurnedDigit(high, Rotation(i / 4), k);
    assert LocalPart(low, high, i) % 0x100_0000 == a && LocalPart(low, high, i) / 0x100_0000 % 0x40 == b % 0x40;
    assert ExternalPart(high, i) % 0x4_0000 == b / 0x40;
  }

  lemma TurnedDigit(n: key24, c: nat, k: nat)
    requires c <= 24 && k < 24
    ensures Bit(Rotl24(n, c), k) <==> Bit(n, (k + 24 - c) % 24)
  {
    Width24();
    hide Bit, Pow2, RotateLeft;
    RotatedBit(n, c, 24, k);
  }

  // Only numbers of six decimal digits are issued.
  predicate Issued(high: key24, i: nat)
    requires i < 16
  {
    ExternalPart(high, i) < 1000000
  }

  function Rotr24(n: nat, c: nat): nat
    requires c <= 24
  {
    Low(Or(Shr(n, c), Shl(n, 24 - c)), 24)
  }

  // What the player makes of the two words.
  function DecodeLe(local: word32, external: word32): (nat, nat) {
    var low := local % 0x100_0000;
    var high := external % 0x4_0000 * 0x40 + local / 0x100_0000 % 0x40;
    (Rotr24(low, Rotation(external / 0x4_0000 % 4)), Rotr24(high, Rotation(local / 0x4000_0000 % 4)))
  }

  lemma RotrIsRotl(n: key24, c: nat)
    requires c <= 24
    ensures Rotr24(n, c) == RotateLeft(n, 24 - c, 24)
  {
    hide Bit, Or, Shr, Shl, Low, RotateLeft, Pow2;
    Width24();
    var a, b := Rotr24(n, c), RotateLeft(n, 24 - c, 24);
    LowBound(Or(Shr(n, c), Shl(n, 24 - c)), 24);
    RotatedBound(n, 24 - c, 24);
    forall k: nat | k < 24 ensures Bit(a, k) == Bit(b, k) {
      LowBit(Or(Shr(n, c), Shl(n, 24 - c)), 24, k);
      OrBit(Shr(n, c), Shl(n, 24 - c), k);
      ShrBit(n, c, k);
      ShlBit(n, 24 - c, k);
      RotatedBit(n, 24 - c, 24, k);
      if 24 - c <= k {
        HighBitsClear(n, 24, k + c);
      }
    }
    SameLowBits(a, b, 24);
  }

  lemma RotatedBack(n: key24, c: nat)
    requires c <= 24
    ensures Rotr24(Rotl24(n, c), c) == n
  {
    hide RotateLeft, Rotr24, Pow2;
    Width24();
    RotrIsRotl(Rotl24(n, c), c);
    RotationsAdd(n, c, 24 - c, 24);
    FullRotation(n, 24);
  }

  // A code issued for a key decodes to the key.
  lemma LeRoundTrip(low: key24, high: key24, i: nat)
    requires i < 16 && Issued(high, i)
    ensures LocalPart(low, high, i) < 0x1_0000_0000 && ExternalPart(high, i) < 0x1_0000_0000
    ensures DecodeLe(LocalPart(low, high, i), ExternalPart(high, i)) == (low, high)
  {
    hide Rotl24, Rotr24;
    var a, b := Rotl24(low, Rotation(i % 4)), Rotl24(high, Rotation(i / 4));
    RotatedBack(low, Rotation(i % 4));
    RotatedBack(high, Rotation(i / 4));
    var local, external := LocalPart(low, high, i), ExternalPart(high, i);
    assert local % 0x100_0000 == a && local / 0x100_0000 % 0x40 == b % 0x40 && local / 0x4000_0000 % 4 == i / 4;
    assert external % 0x4_0000 == b / 0x40 && external / 0x4_0000 % 4 == i % 4;
  }

  // At least twelve of the sixteen codes of every key can be issued.
  lemma TwelveCodes(high: key24, i: nat)
    requires i < 16
    ensures i % 4 != 3 ==> Issued(high, i)
    ensures Issued(high, i) <==> i % 4 != 3 || Rotl24(high, Rotation(i / 4)) / 0x40 < 213568
  {
    hide Rotl24;
  }
}
