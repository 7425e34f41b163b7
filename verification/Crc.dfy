/** CRC-32 as calculated over archive members (player/src/pal/_zip/zip.c).

  Crc32 is the bit-by-bit definition of section 4.4.7 of APPNOTE.TXT: the reflected
  polynomial 0xEDB88320, all ones at the start and a final complement. The program
  looks a 16-entry table up twice per byte instead.
*/
module Crc {
  import opened Bits

  const POLYNOMIAL: word32 := 0xEDB8_8320

  const TABLE: seq<word32> := [
    0x0000_0000, 0x1DB7_1064, 0x3B6E_20C8, 0x26D9_30AC,
    0x76DC_4190, 0x6B6B_51F4, 0x4DB2_6158, 0x5005_713C,
    0xEDB8_8320, 0xF00F_9344, 0xD6D6_A3E8, 0xCB61_B38C,
    0x9B64_C2B0, 0x86D3_D2D4, 0xA00A_E278, 0xBDBD_F21C
  ]

  // ----- Definition, one bit at a time -----

  function ShiftBit(c: nat): nat {
    if c % 2 == 1 then Xor(c / 2, POLYNOMIAL) else c / 2
  }

  function ShiftBits(c: nat, n: nat): nat
    decreases n
  {
    if n == 0 then c else ShiftBits(ShiftBit(c), n - 1)
  }

  function Register(s: seq<byte>): nat {
    if s == [] then 0xFFFF_FFFF
    else ShiftBits(Xor(Register(s[..|s| - 1]), s[|s| - 1]), 8)
  }

  lemma {:induction false} ShiftBitsBound(c: nat, n: nat)
    requires c < Pow2(32)
    ensures ShiftBits(c, n) < Pow2(32)
    decreases n
  {
    Pow2Words();
    if n != 0 {
      XorBound(c / 2, POLYNOMIAL, 32);
      ShiftBitsBound(ShiftBit(c), n - 1);
    }
  }

  lemma {:induction false} RegisterBound(s: seq<byte>)
    ensures Register(s) < Pow2(32) == 0x1_0000_0000
  {
    Pow2Words();
    if s != [] {
      RegisterBound(s[..|s| - 1]);
      XorBound(Register(s[..|s| - 1]), s[|s| - 1], 32);
      ShiftBitsBound(Xor(Register(s[..|s| - 1]), s[|s| - 1]), 8);
    }
  }

  function Crc32(s: seq<byte>): (crc: word32) {
    RegisterBound(s);
    Not32(Register(s))
  }

  // ----- The nibble table -----

  type hex = x: nat | x < 0x10

  function XorHex(x: hex, y: hex): (z: hex)
    ensures z == Xor(x, y)
  {
    XorBound(x, y, 4);
    Xor(x, y)
  }

  function Entry(i: hex): word32 { TABLE[i] }

  function NibbleStep(crc: nat, n: hex): nat {
    Xor(crc / 0x10, Entry(XorHex(crc % 0x10, n)))
  }

  function ByteStep(crc: nat, b: byte): nat {
    NibbleStep(NibbleStep(crc, b % 0x10), b / 0x10)
  }

  // Shifting is linear over exclusive-or.
  lemma ShiftBitXor(a: nat, b: nat)
    ensures ShiftBit(Xor(a, b)) == Xor(ShiftBit(a), ShiftBit(b))
  {
    XorUnfold(a, b);
    var x, y := a / 2, b / 2;
    if a % 2 == 1 && b % 2 == 1 {
      XorComm(y, POLYNOMIAL);
      XorAssoc(x, POLYNOMIAL, Xor(POLYNOMIAL, y));
      XorCancel(y, POLYNOMIAL);
    } else if a % 2 == 1 {
      XorAssoc(x, y, POLYNOMIAL);
      XorComm(y, POLYNOMIAL);
      XorAssoc(x, POLYNOMIAL, y);
    } else if b % 2 == 1 {
      XorAssoc(x, y, POLYNOMIAL);
    }
  }

  lemma {:induction false} ShiftBitsXor(a: nat, b: nat, n: nat)
    ensures ShiftBits(Xor(a, b), n) == Xor(ShiftBits(a, n), ShiftBits(b, n))
    decreases n
  {
    if n != 0 {
      ShiftBitXor(a, b);
      ShiftBitsXor(ShiftBit(a), ShiftBit(b), n - 1);
    }
  }

  // High digits move down without meeting the polynomial.
  lemma {:induction false} ShiftBitsHigh(high: nat, n: nat)
    ensures ShiftBits(high * Pow2(n), n) == high
    decreases n
  {
    if n != 0 {
      assert high * Pow2(n) == 2 * (high * Pow2(n - 1));
      ShiftBitsHigh(high, n - 1);
    }
  }

  // ----- The table entries, by linearity from those of single bits -----

  datatype Hex = Hex(h: hex, g: hex, f: hex, e: hex, d: hex, c: hex, b: hex, a: hex) {
    function High(): nat { FourDigits(h, g, f, e) }
    function Low(): nat { FourDigits(d, c, b, a) }
    function Value(): nat { High() * 0x1_0000 + Low() }
  }

  lemma XorDigit(x: nat, a: hex, y: nat, b: hex)
    ensures Xor(x * 0x10 + a, y * 0x10 + b) == Xor(x, y) * 0x10 + XorHex(a, b)
  {
    Pow2Words();
    XorConcat(x, a, y, b, 4);
  }

  lemma XorTwoDigits(x: nat, a: hex, b: hex, y: nat, c: hex, d: hex)
    ensures Xor((x * 0x10 + a) * 0x10 + b, (y * 0x10 + c) * 0x10 + d)
         == (Xor(x, y) * 0x10 + XorHex(a, c)) * 0x10 + XorHex(b, d)
  {
    hide *;
    XorDigit(x, a, y, c);
    var x', y' := x * 0x10 + a, y * 0x10 + c;
    XorDigit(x', b, y', d);
  }

  function FourDigits(h: hex, g: hex, f: hex, e: hex): (x: nat)
    ensures x < 0x1_0000
  {
    ((h * 0x10 + g) * 0x10 + f) * 0x10 + e
  }

  lemma XorFourDigits(h: hex, g: hex, f: hex, e: hex, h': hex, g': hex, f': hex, e': hex)
    ensures Xor(FourDigits(h, g, f, e), FourDigits(h', g', f', e'))
         == FourDigits(XorHex(h, h'), XorHex(g, g'), XorHex(f, f'), XorHex(e, e'))
  {
    hide Xor, XorHex;
    XorDigit(h, g, h', g');
    var x: nat, x': nat := h * 0x10 + g, h' * 0x10 + g';
    XorTwoDigits(x, f, e, x', f', e');
    var y := XorHex(h, h') * 0x10 + XorHex(g, g');
    assert Xor((x * 0x10 + f) * 0x10 + e, (x' * 0x10 + f') * 0x10 + e')
        == (y * 0x10 + XorHex(f, f')) * 0x10 + XorHex(e, e');
  }

  lemma XorValue(x: Hex, y: Hex)
    ensures Xor(x.Value(), y.Value())
         == Hex(XorHex(x.h, y.h), XorHex(x.g, y.g), XorHex(x.f, y.f), XorHex(x.e, y.e),
                XorHex(x.d, y.d), XorHex(x.c, y.c), XorHex(x.b, y.b), XorHex(x.a, y.a)).Value()
  {
    hide Xor, XorHex, FourDigits;
    Pow2Words();
    var p, q, r, s := x.High(), x.Low(), y.High(), y.Low();
    XorConcat(p, q, r, s, 16);
    XorFourDigits(x.h, x.g, x.f, x.e, y.h, y.g, y.f, y.e);
    XorFourDigits(x.d, x.c, x.b, x.a, y.d, y.c, y.b, y.a);
  }

  lemma SingleBitEntries()
    ensures ShiftBits(0, 4) == 0x0000_0000
    ensures ShiftBits(1, 4) == 0x1DB7_1064
    ensures ShiftBits(2, 4) == 0x3B6E_20C8
    ensures ShiftBits(4, 4) == 0x76DC_4190
    ensures ShiftBits(8, 4) == 0xEDB8_8320
  {
    hide Xor;
    XorZero(POLYNOMIAL);
    var p := POLYNOMIAL;
    assert ShiftBit(1) == p && ShiftBit(p) == p / 2 && ShiftBit(p / 2) == p / 4 && ShiftBit(p / 4) == p / 8;
    assert ShiftBits(p, 1) == p / 2 && ShiftBits(p, 2) == p / 4 && ShiftBits(p, 3) == p / 8;
    assert ShiftBits(8, 4) == ShiftBits(4, 3) == ShiftBits(2, 2) == ShiftBits(1, 1);
    assert ShiftBits(4, 4) == ShiftBits(2, 3) == ShiftBits(1, 2);
    assert ShiftBits(2, 4) == ShiftBits(1, 3);
    assert ShiftBits(0, 4) == ShiftBits(0, 3) == ShiftBits(0, 2) == ShiftBits(0, 1) == 0;
  }

  lemma TableXor(i: nat, j: nat, x: Hex, y: Hex)
    requires i < 0x10 && j < 0x10
    requires ShiftBits(i, 4) == x.Value() && ShiftBits(j, 4) == y.Value()
    ensures ShiftBits(Xor(i, j), 4)
         == Hex(XorHex(x.h, y.h), XorHex(x.g, y.g), XorHex(x.f, y.f), XorHex(x.e, y.e),
                XorHex(x.d, y.d), XorHex(x.c, y.c), XorHex(x.b, y.b), XorHex(x.a, y.a)).Value()
  {
    ShiftBitsXor(i, j, 4);
    XorValue(x, y);
  }

  lemma Entry3And5()
    requires ShiftBits(1, 4) == 0x1DB7_1064
    requires ShiftBits(2, 4) == 0x3B6E_20C8
    requires ShiftBits(4, 4) == 0x76DC_4190
    ensures ShiftBits(3, 4) == 0x26D9_30AC
    ensures ShiftBits(5, 4) == 0x6B6B_51F4
  {
    hide ShiftBits;
    TableXor(2, 1, Hex(0x3, 0xB, 0x6, 0xE, 0x2, 0x0, 0xC, 0x8), Hex(0x1, 0xD, 0xB, 0x7, 0x1, 0x0, 0x6, 0x4));
    TableXor(4, 1, Hex(0x7, 0x6, 0xD, 0xC, 0x4, 0x1, 0x9, 0x0), Hex(0x1, 0xD, 0xB, 0x7, 0x1, 0x0, 0x6, 0x4));
  }

  lemma Entry6And7()
    requires ShiftBits(2, 4) == 0x3B6E_20C8
    requires ShiftBits(3, 4) == 0x26D9_30AC
    requires ShiftBits(4, 4) == 0x76DC_4190
    ensures ShiftBits(6, 4) == 0x4DB2_6158
    ensures ShiftBits(7, 4) == 0x5005_713C
  {
    hide ShiftBits;
    TableXor(4, 2, Hex(0x7, 0x6, 0xD, 0xC, 0x4, 0x1, 0x9, 0x0), Hex(0x3, 0xB, 0x6, 0xE, 0x2, 0x0, 0xC, 0x8));
    TableXor(4, 3, Hex(0x7, 0x6, 0xD, 0xC, 0x4, 0x1, 0x9, 0x0), Hex(0x2, 0x6, 0xD, 0x9, 0x3, 0x0, 0xA, 0xC));
  }

  lemma Entry9And10()
    requires ShiftBits(1, 4) == 0x1DB7_1064
    requires ShiftBits(2, 4) == 0x3B6E_20C8
    requires ShiftBits(8, 4) == 0xEDB8_8320
    ensures ShiftBits(9, 4) == 0xF00F_9344
    ensures ShiftBits(10, 4) == 0xD6D6_A3E8
  {
    hide ShiftBits;
    TableXor(8, 1, Hex(0xE, 0xD, 0xB, 0x8, 0x8, 0x3, 0x2, 0x0), Hex(0x1, 0xD, 0xB, 0x7, 0x1, 0x0, 0x6, 0x4));
    TableXor(8, 2, Hex(0xE, 0xD, 0xB, 0x8, 0x8, 0x3, 0x2, 0x0), Hex(0x3, 0xB, 0x6, 0xE, 0x2, 0x0, 0xC, 0x8));
  }

  lemma Entry11And12()
    requires ShiftBits(3, 4) == 0x26D9_30AC
    requires ShiftBits(4, 4) == 0x76DC_4190
    requires ShiftBits(8, 4) == 0xEDB8_8320
    ensures ShiftBits(11, 4) == 0xCB61_B38C
    ensures ShiftBits(12, 4) == 0x9B64_C2B0
  {
    hide ShiftBits;
    TableXor(8, 3, Hex(0xE, 0xD, 0xB, 0x8, 0x8, 0x3, 0x2, 0x0), Hex(0x2, 0x6, 0xD, 0x9, 0x3, 0x0, 0xA, 0xC));
    TableXor(8, 4, Hex(0xE, 0xD, 0xB, 0x8, 0x8, 0x3, 0x2, 0x0), Hex(0x7, 0x6, 0xD, 0xC, 0x4, 0x1, 0x9, 0x0));
  }

  lemma Entry13And14()
    requires ShiftBits(5, 4) == 0x6B6B_51F4
    requires ShiftBits(6, 4) == 0x4DB2_6158
    requires ShiftBits(8, 4) == 0xEDB8_8320
    ensures ShiftBits(13, 4) == 0x86D3_D2D4
    ensures ShiftBits(14, 4) == 0xA00A_E278
  {
    hide ShiftBits;
    TableXor(8, 5, Hex(0xE, 0xD, 0xB, 0x8, 0x8, 0x3, 0x2, 0x0), Hex(0x6, 0xB, 0x6, 0xB, 0x5, 0x1, 0xF, 0x4));
    TableXor(8, 6, Hex(0xE, 0xD, 0xB, 0x8, 0x8, 0x3, 0x2, 0x0), Hex(0x4, 0xD, 0xB, 0x2, 0x6, 0x1, 0x5, 0x8));
  }

  lemma Entry15()
    requires ShiftBits(7, 4) == 0x5005_713C
    requires ShiftBits(8, 4) == 0xEDB8_8320
    ensures ShiftBits(15, 4) == 0xBDBD_F21C
  {
    hide ShiftBits;
    TableXor(8, 7, Hex(0xE, 0xD, 0xB, 0x8, 0x8, 0x3, 0x2, 0x0), Hex(0x5, 0x0, 0x0, 0x5, 0x7, 0x1, 0x3, 0xC));
  }

  lemma TableEntry(i: hex)
    ensures ShiftBits(i, 4) == Entry(i)
  {
    hide ShiftBits;
    SingleBitEntries();
    Entry3And5();
    Entry6And7();
    Entry9And10();
    Entry11And12();
    Entry13And14();
    Entry15();
  }

  // An entry looked up by the low digit, with the other digits shifted down.
  lemma FourShifts(i: hex, high: nat)
    ensures ShiftBits(Xor(i, high * 0x10), 4) == Xor(high, Entry(i))
  {
    hide *;
    Pow2Words();
    ShiftBitsXor(i, high * 0x10, 4);
    ShiftBitsHigh(high, 4);
    TableEntry(i);
    XorComm(Entry(i), high);
  }

  lemma NibbleShift(high: nat, low: hex, n: hex)
    ensures ShiftBits(Xor(high * 0x10 + low, n), 4) == Xor(high, Entry(XorHex(low, n)))
  {
    hide *;
    var h := high * 0x10;
    Pow2Words();
    XorJoin(high, low, 4);
    XorComm(low, h);
    XorAssoc(h, low, n);
    XorComm(h, XorHex(low, n));
    FourShifts(XorHex(low, n), high);
  }

  lemma NibbleStepIsFourShifts(crc: nat, n: hex)
    ensures NibbleStep(crc, n) == ShiftBits(Xor(crc, n), 4)
  {
    hide *;
    NibbleSplit(crc);
    NibbleStepMeans(crc, n);
    NibbleShift(crc / 0x10, crc % 0x10, n);
  }

  lemma NibbleSplit(crc: nat)
    ensures crc / 0x10 * 0x10 + crc % 0x10 == crc
  {
  }

  lemma NibbleStepMeans(crc: nat, n: hex)
    ensures NibbleStep(crc, n) == Xor(crc / 0x10, Entry(XorHex(crc % 0x10, n)))
  {
    hide Xor, Entry, XorHex;
  }

  lemma {:induction false} ShiftBitsAdd(c: nat, m: nat, n: nat)
    ensures ShiftBits(c, m + n) == ShiftBits(ShiftBits(c, m), n)
    decreases m
  {
    if m != 0 {
      ShiftBitsAdd(ShiftBit(c), m - 1, n);
    }
  }

  // Two table lookups are eight one-bit shifts.
  lemma ByteStepIsEightShifts(crc: nat, b: byte)
    ensures ByteStep(crc, b) == ShiftBits(Xor(crc, b), 8)
  {
    hide Xor, ShiftBits;
    var low, high := b % 0x10, b / 0x10;
    NibbleStepIsFourShifts(crc, low);
    var c := Xor(crc, low);
    NibbleStepIsFourShifts(ShiftBits(c, 4), high);
    Pow2Words();
    XorJoin(high, low, 4);
    XorAssoc(crc, low, high * 0x10);
    ShiftBitsXor(c, high * 0x10, 4);
    ShiftBitsHigh(high, 4);
    ShiftBitsAdd(Xor(crc, b), 4, 4);
  }

  // The checksums of nothing and of a single zero.
  lemma KnownChecksums()
    ensures Crc32([]) == 0
    ensures Crc32([0]) == 0xD202_EF8D
  {
    NothingRegistered();
    RegisterStep([0], 0);
    assert [0][..0] == [] && [0][..1] == [0];
    ZeroByte();
    hide Register, ByteStep;
  }

  lemma ZeroByte()
    ensures ByteStep(0xFFFF_FFFF, 0) == 0x2DFD_1072
  {
    FirstNibble();
    SecondNibble();
    hide NibbleStep;
  }

  lemma FirstNibble()
    ensures NibbleStep(0xFFFF_FFFF, 0) == 0xB242_0DE3
  {
    hide Xor, XorHex;
    XorZero(0xF);
    FirstNibbleUpper();
    FirstNibbleLower();
    XorValue(Hex(0x0, 0xF, 0xF, 0xF, 0xF, 0xF, 0xF, 0xF), Hex(0xB, 0xD, 0xB, 0xD, 0xF, 0x2, 0x1, 0xC));
  }

  lemma FirstNibbleUpper()
    ensures XorHex(0x0, 0xB) == 0xB
    ensures XorHex(0xF, 0xD) == 0x2
    ensures XorHex(0xF, 0xB) == 0x4
    ensures XorHex(0xF, 0xD) == 0x2
  {
    hide Xor;
    XorBits(0, 0, 0, 0, 1, 0, 1, 1);
    XorBits(1, 1, 1, 1, 1, 1, 0, 1);
    XorBits(1, 1, 1, 1, 1, 0, 1, 1);
    XorBits(1, 1, 1, 1, 1, 1, 0, 1);
  }

  lemma FirstNibbleLower()
    ensures XorHex(0xF, 0xF) == 0x0
    ensures XorHex(0xF, 0x2) == 0xD
    ensures XorHex(0xF, 0x1) == 0xE
    ensures XorHex(0xF, 0xC) == 0x3
  {
    hide Xor;
    XorBits(1, 1, 1, 1, 1, 1, 1, 1);
    XorBits(1, 1, 1, 1, 0, 0, 1, 0);
    XorBits(1, 1, 1, 1, 0, 0, 0, 1);
    XorBits(1, 1, 1, 1, 1, 1, 0, 0);
  }

  lemma SecondNibble()
    ensures NibbleStep(0xB242_0DE3, 0) == 0x2DFD_1072
  {
    hide Xor, XorHex;
    XorZero(0x3);
    SecondNibbleUpper();
    SecondNibbleLower();
    XorValue(Hex(0x0, 0xB, 0x2, 0x4, 0x2, 0x0, 0xD, 0xE), Hex(0x2, 0x6, 0xD, 0x9, 0x3, 0x0, 0xA, 0xC));
  }

  lemma SecondNibbleUpper()
    ensures XorHex(0x0, 0x2) == 0x2
    ensures XorHex(0xB, 0x6) == 0xD
    ensures XorHex(0x2, 0xD) == 0xF
    ensures XorHex(0x4, 0x9) == 0xD
  {
    hide Xor;
    XorBits(0, 0, 0, 0, 0, 0, 1, 0);
    XorBits(1, 0, 1, 1, 0, 1, 1, 0);
    XorBits(0, 0, 1, 0, 1, 1, 0, 1);
    XorBits(0, 1, 0, 0, 1, 0, 0, 1);
  }

  lemma SecondNibbleLower()
    ensures XorHex(0x2, 0x3) == 0x1
    ensures XorHex(0x0, 0x0) == 0x0
    ensures XorHex(0xD, 0xA) == 0x7
    ensures XorHex(0xE, 0xC) == 0x2
  {
    hide Xor;
    XorBits(0, 0, 1, 0, 0, 0, 1, 1);
    XorBits(0, 0, 0, 0, 0, 0, 0, 0);
    XorBits(1, 1, 0, 1, 1, 0, 1, 0);
    XorBits(1, 1, 1, 0, 1, 1, 0, 0);
  }

  // ----- The loop over a buffer -----

  lemma NothingRegistered()
    ensures Register([]) == 0xFFFF_FFFF
  {
  }

  // One more byte is one turn of the loop.
  lemma RegisterStep(s: seq<byte>, i: nat)
    requires i < |s|
    ensures Register(s[..i + 1]) == ByteStep(Register(s[..i]), s[i])
  {
    assert s[..i + 1][..i] == s[..i];
    ByteStepIsEightShifts(Register(s[..i]), s[i]);
  }

  method CalculateCrc(buffer: array<byte>, length: nat) returns (result: word32)
    requires length <= buffer.Length
    ensures result == Crc32(buffer[..length])
  {
    hide Register, Xor, Entry, XorHex;
    NothingRegistered();
    var crc: nat := 0xFFFF_FFFF;
    for i := 0 to length
      invariant crc == Register(buffer[..i])
    {
      var b := buffer[i];
      RegisterStep(buffer[..], i);
      assert buffer[..][..i] == buffer[..i] && buffer[..][..i + 1] == buffer[..i + 1];
      crc := Xor(crc / 0x10, Entry(XorHex(crc % 0x10, b % 0x10)));
      crc := Xor(crc / 0x10, Entry(XorHex(crc % 0x10, b / 0x10)));
    }
    RegisterBound(buffer[..length]);
    result := Not32(crc);
  }
}
