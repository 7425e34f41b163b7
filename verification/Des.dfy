/** The block cipher of player/src/enc/cipher/des.c.

  The functions define what a block is encrypted to; each loop of the program is a
  method proved to compute the function of the same purpose. The lemmas state what
  makes the cipher usable: deciphering undoes enciphering, for any round function,
  and the key schedule returns to where it started.
*/
module Des {
  import opened Bits
  import opened Bytes
  import opened DesTables

  // ----- Bit permutations -----

  function Listed(rows: seq<seq<nat>>, columns: nat, width: nat, i: nat): (t: nat)
    requires Table(rows, columns, width) && i < |rows| * columns
    ensures 1 <= t <= width
  {
    DivBound(i, columns, |rows|);
    rows[i / columns][i % columns]
  }

  // The word whose digits, from the most significant one, are those of x at the first n positions listed.
  function Permute(rows: seq<seq<nat>>, columns: nat, width: nat, n: nat, x: nat): nat
    requires Table(rows, columns, width) && n <= |rows| * columns
  {
    if n == 0 then 0
    else
      2 * Permute(rows, columns, width, n - 1, x)
      + if Bit(x, width - Listed(rows, columns, width, n - 1)) then 1 else 0
  }

  lemma {:induction false} PermuteBound(rows: seq<seq<nat>>, columns: nat, width: nat, n: nat, x: nat)
    requires Table(rows, columns, width) && n <= |rows| * columns
    ensures Permute(rows, columns, width, n, x) < Pow2(n)
  {
    if n != 0 {
      PermuteBound(rows, columns, width, n - 1, x);
    }
  }

  lemma {:induction false} PermuteBit(rows: seq<seq<nat>>, columns: nat, width: nat, n: nat, x: nat, k: nat)
    requires Table(rows, columns, width) && n <= |rows| * columns
    requires k < n
    ensures Bit(Permute(rows, columns, width, n, x), n - 1 - k)
         == Bit(x, width - Listed(rows, columns, width, k))
  {
    if k != n - 1 {
      PermuteBit(rows, columns, width, n - 1, x, k);
    }
  }

  lemma {:induction false} OrShl(x: nat, y: nat, m: nat)
    ensures Or(Shl(x, m), Shl(y, m)) == Shl(Or(x, y), m)
    decreases m
  {
    if m != 0 {
      OrShl(x, y, m - 1);
    }
  }

  lemma {:induction false} ShlTwice(x: nat, m: nat)
    ensures Shl(x, m + 1) == Shl(2 * x, m)
  {
    if m != 0 {
      ShlTwice(x, m - 1);
    }
  }

  lemma AppendBit(x: nat, b: nat, m: nat)
    requires b < 2
    ensures Or(Shl(x, m + 1), Shl(b, m)) == Shl(2 * x + b, m)
  {
    ShlTwice(x, m);
    OrShl(2 * x, b, m);
    OrZero(x);
  }

  lemma PermuteStep(rows: seq<seq<nat>>, columns: nat, width: nat, i: nat, x: nat, m: nat)
    requires Table(rows, columns, width) && i < |rows| * columns
    ensures Or(Shl(Permute(rows, columns, width, i, x), m + 1),
               Shl(Low(Shr(x, width - Listed(rows, columns, width, i)), 1), m))
         == Shl(Permute(rows, columns, width, i + 1, x), m)
  {
    hide Or, Shl, Low, Shr, Listed, Bit;
    var p := Permute(rows, columns, width, i, x);
    var shift := width - Listed(rows, columns, width, i);
    DigitAt(x, shift);
    AppendBit(p, Low(Shr(x, shift), 1), m);
  }

  method PermuteWord(rows: seq<seq<nat>>, columns: nat, width: nat, input: nat) returns (ret: nat)
    requires Table(rows, columns, width)
    ensures ret == Permute(rows, columns, width, |rows| * columns, input)
  {
    hide Or, Low, Shr, Listed, Bit;
    ret := 0;
    var length: nat := |rows| * columns;
    ShlZero(length);
    for i: nat := 0 to length
      invariant ret == Shl(Permute(rows, columns, width, i, input), length - i)
    {
      hide *;
      var shift := width - Listed(rows, columns, width, i);
      PermuteStep(rows, columns, width, i, input, length - i - 1);
      ret := Or(ret, Shl(Low(Shr(input, shift), 1), length - i - 1));
    }
  }

  lemma {:induction false} ShlZero(m: nat)
    ensures Shl(0, m) == 0
  {
    if m != 0 {
      ShlZero(m - 1);
    }
  }

  lemma DigitAt(x: nat, s: nat)
    ensures Low(Shr(x, s), 1) == if Bit(x, s) then 1 else 0
  {
    ShrBit(x, s, 0);
    assert Low(Shr(x, s), 1) == Shr(x, s) % 2;
  }

  // ----- Joining and splitting halves -----

  lemma {:induction false} JoinHalves(high: nat, low: nat, n: nat)
    requires low < Pow2(n)
    ensures Shr(Or(Shl(high, n), low), n) == high
    ensures Low(Or(Shl(high, n), low), n) == low
    decreases n
  {
    if n == 0 {
      OrZero(high);
    } else {
      JoinHalves(high, low / 2, n - 1);
      OrHalf(Shl(high, n), low);
    }
  }

  lemma OrHalf(a: nat, b: nat)
    ensures Or(a, b) / 2 == Or(a / 2, b / 2)
    ensures Or(a, b) % 2 == if a % 2 == 1 || b % 2 == 1 then 1 else 0
  {
  }

  lemma {:induction false} SplitWord(x: nat, n: nat)
    ensures Or(Shl(Shr(x, n), n), Low(x, n)) == x
    decreases n
  {
    if n == 0 {
      OrZero(x);
    } else {
      SplitWord(x / 2, n - 1);
      OrHalf(Shl(Shr(x, n), n), Low(x, n));
    }
  }

  lemma {:induction false} JoinBound(high: nat, low: nat, m: nat, n: nat)
    requires high < Pow2(m) && low < Pow2(n)
    ensures Or(Shl(high, n), low) < Pow2(m + n)
    decreases n
  {
    if n == 0 {
      OrZero(high);
    } else {
      JoinBound(high, low / 2, m, n - 1);
      OrHalf(Shl(high, n), low);
    }
  }

  lemma {:induction false} ShrBound(x: nat, m: nat, n: nat)
    requires x < Pow2(m + n)
    ensures Shr(x, n) < Pow2(m)
    decreases n
  {
    if n != 0 {
      ShrBound(x / 2, m, n - 1);
    }
  }

  // ----- The initial and the final permutation -----

  function Initial(x: nat): nat {
    Tables();
    Permute(IP, 8, 64, 64, x)
  }

  function Final(x: nat): nat {
    Tables();
    Permute(FP, 8, 64, 64, x)
  }

  lemma InitialBit(x: nat, i: nat)
    requires i < 64
    ensures Bit(Initial(x), 63 - i) == Bit(x, 64 - InitialAt(i / 8, i % 8))
    ensures Initial(x) < Pow2(64)
  {
    hide Bit, Permute;
    Tables();
    PermuteBit(IP, 8, 64, 64, x, i);
    PermuteBound(IP, 8, 64, 64, x);
  }

  lemma FinalBit(x: nat, i: nat)
    requires i < 64
    ensures Bit(Final(x), 63 - i) == Bit(x, 64 - FinalAt(i / 8, i % 8))
    ensures Final(x) < Pow2(64)
  {
    hide Bit, Permute;
    Tables();
    PermuteBit(FP, 8, 64, 64, x, i);
    PermuteBound(FP, 8, 64, 64, x);
  }

  lemma FinalUndoesInitial(x: nat)
    requires x < Pow2(64)
    ensures Final(Initial(x)) == x
  {
    hide *;
    var y := Initial(x);
    FinalBit(y, 0);
    forall j: nat | j < 64 ensures Bit(Final(y), j) == Bit(x, j) {
      var k: nat := 63 - j;
      FinalThenInitial(k / 8, k % 8);
      FinalBit(y, k);
      InitialBit(x, FinalAt(k / 8, k % 8) - 1);
    }
    SameLowBits(Final(y), x, 64);
  }

  lemma InitialUndoesFinal(x: nat)
    requires x < Pow2(64)
    ensures Initial(Final(x)) == x
  {
    hide *;
    var y := Final(x);
    InitialBit(y, 0);
    forall j: nat | j < 64 ensures Bit(Initial(y), j) == Bit(x, j) {
      var k: nat := 63 - j;
      InitialThenFinal(k / 8, k % 8);
      InitialBit(y, k);
      FinalBit(x, InitialAt(k / 8, k % 8) - 1);
    }
    SameLowBits(Initial(y), x, 64);
  }

  // ----- The round function -----

  // Substitution by box i of a 6-bit value: the outer bits select the row, the inner ones the column.
  function Substitute(i: nat, input: nat): Nibble
    requires i < 8 && input < 64
  {
    hide SBox;
    var row := input / 32 * 2 + input % 2;
    var col := input / 2 % 16;
    SBox(i)[row][col]
  }

  function Sextet(e: nat, i: nat): (v: nat)
    requires i < 8
    ensures v < 64
  {
    LowBound(Shr(e, 42 - 6 * i), 6);
    assert Pow2(6) == 64;
    Low(Shr(e, 42 - 6 * i), 6)
  }

  // The outputs of the first n boxes, four digits each.
  function Substituted(e: nat, n: nat): (output: nat)
    requires n <= 8
  {
    if n == 0 then 0 else 16 * Substituted(e, n - 1) + Substitute(n - 1, Sextet(e, n - 1))
  }

  function F(k: nat, r: nat): (out: nat)
    ensures out < Pow2(32)
  {
    Tables();
    var output := Substituted(Xor(Permute(E, 6, 32, 48, r), k), 8);
    PermuteBound(P, 4, 32, 32, output);
    Permute(P, 4, 32, 32, output)
  }

  // The loop keeps the remaining digits at the top of a 48-bit window of a 64-bit word.
  lemma WindowDigits(e: nat, i: nat)
    requires i < 8
    ensures Low(Shr(Low(Shl(e, 6 * i), 64), 42), 6) == Sextet(e, i)
  {
    hide Low, Shr, Shl, Bit, Pow2;
    var w := Low(Shl(e, 6 * i), 64);
    var a, b := Low(Shr(w, 42), 6), Low(Shr(e, 42 - 6 * i), 6);
    LowBound(Shr(w, 42), 6);
    LowBound(Shr(e, 42 - 6 * i), 6);
    forall k: nat | k < 6 ensures Bit(a, k) == Bit(b, k) {
      LowBit(Shr(w, 42), 6, k);
      LowBit(Shr(e, 42 - 6 * i), 6, k);
      ShrBit(w, 42, k);
      ShrBit(e, 42 - 6 * i, k);
      LowBit(Shl(e, 6 * i), 64, k + 42);
      ShlBit(e, 6 * i, k + 42);
    }
    SameLowBits(a, b, 6);
  }

  lemma ShiftWindow(e: nat, i: nat)
    ensures Low(Shl(Low(Shl(e, 6 * i), 64), 6), 64) == Low(Shl(e, 6 * (i + 1)), 64)
  {
    hide *;
    var w := Low(Shl(e, 6 * i), 64);
    var a, b := Low(Shl(w, 6), 64), Low(Shl(e, 6 * (i + 1)), 64);
    LowBound(Shl(w, 6), 64);
    LowBound(Shl(e, 6 * (i + 1)), 64);
    forall k: nat | k < 64 ensures Bit(a, k) == Bit(b, k) {
      LowBit(Shl(w, 6), 64, k);
      LowBit(Shl(e, 6 * (i + 1)), 64, k);
      ShlBit(w, 6, k);
      ShlBit(e, 6 * (i + 1), k);
      if 6 <= k {
        LowBit(Shl(e, 6 * i), 64, k - 6);
        ShlBit(e, 6 * i, k - 6);
      }
    }
    SameLowBits(a, b, 64);
  }

  lemma AppendNibble(output: nat, s: nat)
    requires s < 16
    ensures Or(Shl(output, 4), s) == 16 * output + s
  {
    hide Or;
    assert Pow2(4) == 16;
    assert Shl(output, 4) == 16 * output;
    OrDisjoint(output, s, 4);
  }

  lemma {:induction false} LowOfSmall(x: nat, n: nat)
    requires x < Pow2(n)
    ensures Low(x, n) == x
    decreases n
  {
    if n != 0 {
      LowOfSmall(x / 2, n - 1);
    }
  }

  method RoundFunction(k: nat, r: nat) returns (ret: nat)
    requires k < Pow2(48)
    ensures ret == F(k, r)
  {
    hide Low, Shr, Shl, Or, Xor, Bit, Permute, Substitute, Sextet, Pow2;
    Tables();
    var expanded := PermuteWord(E, 6, 32, r);
    ghost var e0 := Xor(expanded, k);
    var e := Xor(expanded, k);
    StartWindow(r, k);
    assert expanded == Permute(E, 6, 32, 48, r);
    var output := 0;
    assert Substituted(e0, 0) == 0;
    for i := 0 to 8
      invariant e == Low(Shl(e0, 6 * i), 64)
      invariant output == Substituted(e0, i)
    {
      WindowDigits(e0, i);
      var input := Low(Shr(e, 42), 6);
      AppendNibble(output, Substitute(i, input));
      output := Or(Shl(output, 4), Substitute(i, input));
      ShiftWindow(e0, i);
      e := Low(Shl(e, 6), 64);
    }
    ret := PermuteWord(P, 4, 32, output);
  }

  lemma StartWindow(r: nat, k: nat)
    requires k < Pow2(48)
    requires Table(E, 6, 32) && |E| == 8
    ensures var e := Xor(Permute(E, 6, 32, 48, r), k); Low(Shl(e, 0), 64) == e
  {
    hide Low, Xor, Bit, Permute, Pow2;
    var x := Permute(E, 6, 32, 48, r);
    PermuteBound(E, 6, 32, 48, r);
    XorBound(x, k, 48);
    Pow2Add(16, 48);
    MulAtLeast(Pow2(16), Pow2(48));
    assert Shl(Xor(x, k), 0) == Xor(x, k);
    LowOfSmall(Xor(x, k), 64);
  }

  // ----- The sixteen rounds -----

  type RoundKeys = k: seq<nat> | |k| == 16 witness seq(16, _ => 0)

  function Rounds(f: (nat, nat) -> nat, keys: seq<nat>, l: nat, r: nat): (nat, nat) {
    if keys == [] then (l, r) else Rounds(f, keys[1..], r, Xor(l, f(keys[0], r)))
  }

  function Reverse(keys: seq<nat>): (r: seq<nat>)
    ensures |r| == |keys|
    ensures forall i | 0 <= i < |keys| :: r[i] == keys[|keys| - 1 - i]
  {
    seq(|keys|, i requires 0 <= i < |keys| => keys[|keys| - 1 - i])
  }

  lemma {:induction false} RoundsAppend(f: (nat, nat) -> nat, a: seq<nat>, b: seq<nat>, l: nat, r: nat)
    ensures var (l', r') := Rounds(f, a, l, r); Rounds(f, a + b, l, r) == Rounds(f, b, l', r')
  {
    hide Xor;
    if a == [] {
      assert a + b == b;
    } else {
      assert (a + b)[1..] == a[1..] + b;
      RoundsAppend(f, a[1..], b, r, Xor(l, f(a[0], r)));
    }
  }

  // Running the rounds on the swapped halves with the keys in reverse order undoes them,
  // whatever the round function computes.
  lemma {:induction false} RoundsUndone(f: (nat, nat) -> nat, keys: seq<nat>, l: nat, r: nat)
    ensures var (l', r') := Rounds(f, keys, l, r); Rounds(f, Reverse(keys), r', l') == (r, l)
  {
    hide Xor;
    var (l', r') := Rounds(f, keys, l, r);
    if keys != [] {
      var k, rest := keys[0], keys[1..];
      var x := Xor(l, f(k, r));
      RoundsUndone(f, rest, r, x);
      assert Reverse(keys) == Reverse(rest) + [k];
      RoundsAppend(f, Reverse(rest), [k], r', l');
      assert Rounds(f, [k], x, r) == Rounds(f, [k][1..], r, Xor(x, f(k, r)));
      XorCancel(l, f(k, r));
    }
  }

  lemma {:induction false} RoundsBound(f: (nat, nat) -> nat, keys: seq<nat>, l: nat, r: nat)
    requires forall k, x :: f(k, x) < Pow2(32)
    requires l < Pow2(32) && r < Pow2(32)
    ensures var (l', r') := Rounds(f, keys, l, r); l' < Pow2(32) && r' < Pow2(32)
  {
    hide Xor, Pow2;
    if keys != [] {
      XorBound(l, f(keys[0], r), 32);
      RoundsBound(f, keys[1..], r, Xor(l, f(keys[0], r)));
    }
  }

  function Feistel(f: (nat, nat) -> nat, keys: seq<nat>, m: nat): nat {
    var x := Initial(m);
    var (l, r) := Rounds(f, keys, Shr(x, 32), Low(x, 32));
    Final(Or(Shl(r, 32), l))
  }

  lemma FeistelParts(f: (nat, nat) -> nat, keys: seq<nat>, m: nat)
    requires forall k, x :: f(k, x) < Pow2(32)
    ensures var x := Initial(m);
      var (l, r) := Rounds(f, keys, Shr(x, 32), Low(x, 32));
      && Or(Shl(r, 32), l) < Pow2(64) && l < Pow2(32)
    ensures Feistel(f, keys, m) < Pow2(64)
  {
    hide Bit, Pow2, Shl, Shr, Low, Or, Rounds, Initial, Final;
    var x := Initial(m);
    InitialBit(m, 0);
    ShrBound(x, 32, 32);
    LowBound(x, 32);
    RoundsBound(f, keys, Shr(x, 32), Low(x, 32));
    var (l, r) := Rounds(f, keys, Shr(x, 32), Low(x, 32));
    JoinBound(r, l, 32, 32);
    FinalBit(Or(Shl(r, 32), l), 0);
  }

  lemma FeistelUndone(f: (nat, nat) -> nat, keys: seq<nat>, m: nat)
    requires forall k, x :: f(k, x) < Pow2(32)
    requires m < Pow2(64)
    ensures Feistel(f, Reverse(keys), Feistel(f, keys, m)) == m
  {
    hide Bit, Pow2, Shl, Shr, Low, Or, Rounds, Initial, Final, Reverse;
    var x := Initial(m);
    var (l, r) := Rounds(f, keys, Shr(x, 32), Low(x, 32));
    var y := Or(Shl(r, 32), l);
    FeistelParts(f, keys, m);
    InitialUndoesFinal(y);
    JoinHalves(r, l, 32);
    RoundsUndone(f, keys, Shr(x, 32), Low(x, 32));
    SplitWord(x, 32);
    FinalUndoesInitial(m);
  }

  // ----- The block cipher -----

  function Crypt(keys: RoundKeys, m: nat, encrypt: bool): nat {
    Feistel(F, if encrypt then keys else Reverse(keys), m)
  }

  lemma CryptBound(keys: RoundKeys, m: nat, encrypt: bool)
    ensures Crypt(keys, m, encrypt) < Pow2(64)
  {
    hide Pow2, F, Feistel;
    FeistelParts(F, if encrypt then keys else Reverse(keys), m);
  }

  // Each direction undoes the other, for every array of round keys.
  lemma CryptUndone(keys: RoundKeys, m: nat, encrypt: bool)
    requires m < Pow2(64)
    ensures Crypt(keys, Crypt(keys, m, encrypt), !encrypt) == m
  {
    hide Pow2, F, Feistel;
    FeistelUndone(F, if encrypt then keys else Reverse(keys), m);
    assert Reverse(Reverse(keys)) == keys;
  }

  method CryptBlock(subkeys: RoundKeys, input: nat, encrypt: bool) returns (output: nat)
    requires forall i | 0 <= i < 16 :: subkeys[i] < Pow2(48)
    ensures output == Crypt(subkeys, input, encrypt)
  {
    hide Bit, Pow2, Shl, Shr, Low, Or, Xor, F, Permute;
    Tables();
    var m := PermuteWord(IP, 8, 64, input);
    var l, r := Shr(m, 32), Low(m, 32);
    ghost var keys: seq<nat> := if encrypt then subkeys else Reverse(subkeys);
    ghost var l0, r0 := l, r;
    assert keys[..0] == [];
    for i := 0 to 16
      invariant (l, r) == Rounds(F, keys[..i], l0, r0)
    {
      var subkey := subkeys[if encrypt then i else 16 - i - 1];
      var f := RoundFunction(subkey, r);
      assert keys[..i + 1] == keys[..i] + [subkey];
      RoundsAppend(F, keys[..i], [subkey], l0, r0);
      assert Rounds(F, [subkey], l, r) == Rounds(F, [subkey][1..], r, Xor(l, F(subkey, r)));
      l, r := r, Xor(l, f);
    }
    assert keys[..16] == keys;
    output := PermuteWord(FP, 8, 64, Or(Shl(r, 32), l));
  }

  // ----- The key schedule -----

  function RotateLeft(value: nat, count: nat, width: nat): nat
    requires count <= width
  {
    Or(Low(Shl(value, count), width), Shr(value, width - count))
  }

  // A key half after the first n rounds.
  function Half(half: nat, n: nat): nat
    requires n <= 16
  {
    if n == 0 then half else RotateLeft(Half(half, n - 1), ROTATIONS[n - 1], 28)
  }

  function PermutedKey(key: nat): nat {
    Tables();
    Permute(PC1, 7, 64, 56, key)
  }

  function RoundKey(c: nat, d: nat): nat {
    Tables();
    Permute(PC2, 8, 56, 48, Or(Shl(c, 28), d))
  }

  function Subkey(key: nat, round: nat): nat
    requires round < 16
  {
    var k := PermutedKey(key);
    RoundKey(Half(Low(Shr(k, 28), 28), round + 1), Half(Low(k, 28), round + 1))
  }

  function Subkeys(key: nat): (k: RoundKeys)
    ensures forall i | 0 <= i < 16 :: k[i] < Pow2(48)
  {
    forall i | 0 <= i < 16 ensures Subkey(key, i) < Pow2(48) {
      hide *;
      SubkeyBound(key, i);
    }
    seq(16, i requires 0 <= i < 16 => Subkey(key, i))
  }

  lemma SubkeyBound(key: nat, i: nat)
    requires i < 16
    ensures Subkey(key, i) < Pow2(48)
  {
    hide Pow2, Permute, Half, Or, Low, Shr, Shl, PermutedKey;
    Tables();
    var k := PermutedKey(key);
    var c, d := Half(Low(Shr(k, 28), 28), i + 1), Half(Low(k, 28), i + 1);
    PermuteBound(PC2, 8, 56, 48, Or(Shl(c, 28), d));
  }

  lemma RotatedBit(value: nat, count: nat, width: nat, k: nat)
    requires value < Pow2(width) && count <= width && k < width
    ensures Bit(RotateLeft(value, count, width), k) == Bit(value, if k < count then k + width - count else k - count)
  {
    hide Pow2, Bit, Or, Low, Shr, Shl;
    OrBit(Low(Shl(value, count), width), Shr(value, width - count), k);
    LowBit(Shl(value, count), width, k);
    ShlBit(value, count, k);
    ShrBit(value, width - count, k);
    if count <= k {
      HighBitsClear(value, width, k + width - count);
    }
  }

  lemma RotatedBound(value: nat, count: nat, width: nat)
    requires value < Pow2(width) && count <= width
    ensures RotateLeft(value, count, width) < Pow2(width)
  {
    hide Pow2, Bit, Or, Low, Shr, Shl;
    var r := RotateLeft(value, count, width);
    forall k: nat | width <= k ensures !Bit(r, k) {
      OrBit(Low(Shl(value, count), width), Shr(value, width - count), k);
      LowBit(Shl(value, count), width, k);
      ShrBit(value, width - count, k);
      HighBitsClear(value, width, k + width - count);
    }
    BoundedByBits(r, width);
  }

  lemma RotationsAdd(value: nat, a: nat, b: nat, width: nat)
    requires value < Pow2(width) && a + b <= width
    ensures RotateLeft(RotateLeft(value, a, width), b, width) == RotateLeft(value, a + b, width)
  {
    hide Pow2, Bit, RotateLeft;
    var x, y := RotateLeft(value, a, width), RotateLeft(value, a + b, width);
    RotatedBound(value, a, width);
    RotatedBound(x, b, width);
    RotatedBound(value, a + b, width);
    forall k: nat | k < width ensures Bit(RotateLeft(x, b, width), k) == Bit(y, k) {
      RotatedBit(x, b, width, k);
      RotatedBit(value, a, width, if k < b then k + width - b else k - b);
      RotatedBit(value, a + b, width, k);
    }
    SameLowBits(RotateLeft(x, b, width), y, width);
  }

  lemma FullRotation(value: nat, width: nat)
    requires value < Pow2(width)
    ensures RotateLeft(value, 0, width) == value == RotateLeft(value, width, width)
  {
    hide Pow2, Bit, RotateLeft;
    RotatedBound(value, 0, width);
    RotatedBound(value, width, width);
    forall k: nat | k < width
      ensures Bit(RotateLeft(value, 0, width), k) == Bit(value, k) == Bit(RotateLeft(value, width, width), k)
    {
      RotatedBit(value, 0, width, k);
      RotatedBit(value, width, width, k);
    }
    SameLowBits(RotateLeft(value, 0, width), value, width);
    SameLowBits(RotateLeft(value, width, width), value, width);
  }

  function TotalRotation(n: nat): nat
    requires n <= 16
  {
    if n == 0 then 0 else TotalRotation(n - 1) + ROTATIONS[n - 1]
  }

  lemma TotalRotations()
    ensures TotalRotation(16) == 28
    ensures forall n | 0 <= n <= 16 :: TotalRotation(n) <= 28
  {
    assert TotalRotation(4) == 6;
    assert TotalRotation(8) == TotalRotation(4) + ROTATIONS[4] + ROTATIONS[5] + ROTATIONS[6] + ROTATIONS[7] == 14;
    assert TotalRotation(12) == TotalRotation(8) + ROTATIONS[8] + ROTATIONS[9] + ROTATIONS[10] + ROTATIONS[11] == 21;
    assert TotalRotation(16) == TotalRotation(12) + ROTATIONS[12] + ROTATIONS[13] + ROTATIONS[14] + ROTATIONS[15] == 28;
    forall n | 0 <= n <= 16 ensures TotalRotation(n) <= 28 {
      TotalRotationGrows(n, 16);
    }
  }

  lemma {:induction false} TotalRotationGrows(m: nat, n: nat)
    requires m <= n <= 16
    ensures TotalRotation(m) <= TotalRotation(n)
    decreases n
  {
    if m < n {
      TotalRotationGrows(m, n - 1);
    }
  }

  lemma {:induction false} HalfIsOneRotation(half: nat, n: nat)
    requires half < Pow2(28) && n <= 16
    ensures TotalRotation(n) <= 28 && Half(half, n) == RotateLeft(half, TotalRotation(n), 28)
  {
    hide Pow2, RotateLeft;
    TotalRotations();
    if n == 0 {
      FullRotation(half, 28);
    } else {
      HalfIsOneRotation(half, n - 1);
      assert TotalRotation(n) <= 28;
      RotationsAdd(half, TotalRotation(n - 1), ROTATIONS[n - 1], 28);
    }
  }

  // After the last round both key halves are back where they started.
  lemma HalvesReturn(half: nat)
    requires half < Pow2(28)
    ensures Half(half, 16) == half
  {
    hide *;
    HalfIsOneRotation(half, 16);
    TotalRotations();
    FullRotation(half, 28);
  }

  method GenerateSubkeys(key: nat) returns (subkeys: seq<nat>)
    ensures subkeys == Subkeys(key)
  {
    hide Pow2, Bit, Or, Low, Shr, Shl, RotateLeft, Permute;
    Tables();
    var k := PermuteWord(PC1, 7, 64, key);
    var c, d := Low(Shr(k, 28), 28), Low(k, 28);
    ghost var c0, d0 := c, d;
    subkeys := [];
    for round := 0 to 16
      invariant |subkeys| == round
      invariant c == Half(c0, round) && d == Half(d0, round)
      invariant forall i | 0 <= i < round :: subkeys[i] == Subkey(key, i)
    {
      c := RotateLeft(c, ROTATIONS[round], 28);
      d := RotateLeft(d, ROTATIONS[round], 28);
      var subkey := PermuteWord(PC2, 8, 56, Or(Shl(c, 28), d));
      assert subkey == RoundKey(c, d);
      subkeys := subkeys + [subkey];
    }
  }

  // ----- Keys with odd parity -----

  function Parity(n: nat): nat {
    if n == 0 then 0 else (n % 2 + Parity(n / 2)) % 2
  }

  function WithParity(v: nat): (b: byte)
    requires v < 0x80
  {
    ParityRange(2 * v);
    2 * v + 1 - Parity(2 * v)
  }

  // The low 7n bits, seven to a byte, the lowest ones first.
  function Expand(src: nat, n: nat): (dst: seq<byte>)
    ensures |dst| == n
    decreases n
  {
    if n == 0 then [] else [WithParity(src % 0x80)] + Expand(src / 0x80, n - 1)
  }

  function Collapse(key: seq<byte>): nat {
    if key == [] then 0 else key[0] / 2 + 0x80 * Collapse(key[1..])
  }

  lemma {:induction false} ParityRange(n: nat)
    ensures Parity(n) <= 1
  {
    if n != 0 {
      ParityRange(n / 2);
    }
  }

  lemma WithParityOdd(v: nat)
    requires v < 0x80
    ensures Parity(WithParity(v)) == 1 && WithParity(v) / 2 == v
  {
    ParityRange(v);
    assert Parity(2 * v) == Parity(v) by {
      if v != 0 {
        assert (2 * v) / 2 == v;
      }
    }
    var b: nat := WithParity(v);
    assert b / 2 == v;
    assert Parity(b) == if b == 0 then 0 else (b % 2 + Parity(v)) % 2;
  }

  // Every byte of an expanded key has odd parity and the bytes determine the key.
  lemma {:induction false} ExpandedKey(src: nat, n: nat)
    requires src < Pow2(7 * n)
    ensures Collapse(Expand(src, n)) == src
    ensures forall i | 0 <= i < n :: Parity(Expand(src, n)[i]) == 1
    decreases n
  {
    if n != 0 {
      assert Pow2(7) == 0x80;
      Pow2Add(7, 7 * (n - 1));
      ExpandedKey(src / 0x80, n - 1);
      WithParityOdd(src % 0x80);
    }
  }

  lemma ExpandStep(dst: seq<byte>, rest: nat, n: nat)
    requires n > 0
    ensures dst + [WithParity(rest % 0x80)] + Expand(rest / 0x80, n - 1) == dst + Expand(rest, n)
  {
    hide WithParity;
  }

  method Expand56(src: nat) returns (dst: seq<byte>)
    ensures dst == Expand(src, 8)
  {
    hide Parity, Expand;
    dst := [];
    var rest := src;
    assert dst + Expand(src, 8) == Expand(src, 8);
    for b := 0 to 8
      invariant dst + Expand(rest, 8 - b) == Expand(src, 8)
    {
      ParityRange(2 * (rest % 0x80));
      var v: byte := 2 * (rest % 0x80);
      if Parity(v) == 0 {
        v := v + 1;
      }
      ExpandStep(dst, rest, 8 - b);
      dst := dst + [v];
      rest := rest / 0x80;
    }
    assert dst + Expand(rest, 0) == dst;
  }
}
