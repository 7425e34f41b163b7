/** Numbers in the 25-character form of product keys and access codes
  (tools/lavender/key/pkey25.py:1-37, player/src/enc/keyfmt/pkey25.c:16-78, 131-151).
*/
module Base24 {
  import opened Bits
  import opened Wrappers

  // The alphabet, six characters to a row.
  const ALPHABET: seq<seq<char>> := [
    ['2', '3', '4', '6', '7', '8'],
    ['9', 'B', 'C', 'D', 'F', 'G'],
    ['H', 'J', 'K', 'M', 'P', 'Q'],
    ['R', 'T', 'V', 'W', 'X', 'Y']
  ]

  function Letter(d: nat): char
    requires d < 24
  {
    ALPHABET[d / 6][d % 6]
  }

  // The position of a character in the alphabet, searched from d on.
  function Position(c: char, d: nat): Option<nat>
    requires d <= 24
    decreases 24 - d
  {
    if d == 24 then None else if Letter(d) == c then Some(d) else Position(c, d + 1)
  }

  lemma LettersDistinct(d: nat, e: nat)
    requires d < 24 && e < 24 && d != e
    ensures Letter(d) != Letter(e)
  {
    RowsDistinct(d / 6, d % 6, e / 6, e % 6);
  }

  lemma RowsDistinct(i: nat, j: nat, k: nat, l: nat)
    requires i < 4 && j < 6 && k < 4 && l < 6 && (i != k || j != l)
    ensures ALPHABET[i][j] != ALPHABET[k][l]
  {
  }

  // The digits are in the order of their characters.
  lemma LettersAscend(d: nat, e: nat)
    requires d < e < 24
    ensures '2' <= Letter(d) < Letter(e) <= 'Y'
  {
    RowAscends(d / 6);
    RowAscends(e / 6);
    RowsAscend();
    hide ALPHABET;
    if d / 6 == e / 6 {
      assert d % 6 < e % 6;
    }
  }

  lemma RowAscends(i: nat)
    requires i < 4
    ensures forall j, k | 0 <= j < k < 6 :: ALPHABET[i][j] < ALPHABET[i][k]
  {
  }

  lemma RowsAscend()
    ensures forall i | 0 <= i < 3 :: ALPHABET[i][5] < ALPHABET[i + 1][0]
    ensures ALPHABET[0][0] == '2' && ALPHABET[3][5] == 'Y'
  {
  }

  lemma {:induction false} LetterPosition(d: nat, e: nat)
    requires e <= d < 24
    ensures Position(Letter(d), e) == Some(d)
    decreases d - e
  {
    hide Letter;
    if e < d {
      LettersDistinct(d, e);
      LetterPosition(d, e + 1);
    }
  }

  lemma {:induction false} PositionLetter(c: char, d: nat)
    requires d <= 24 && Position(c, d).Some?
    ensures Position(c, d).value < 24 && Letter(Position(c, d).value) == c
    decreases 24 - d
  {
    hide Letter;
    if Letter(d) != c {
      PositionLetter(c, d + 1);
    }
  }

  function Power24(n: nat): (p: nat)
    ensures p >= 1
  {
    if n == 0 then 1 else 24 * Power24(n - 1)
  }

  // ----- The tool's digits -----

  function Digits(number: nat): seq<char> {
    if number == 0 then [] else Digits(number / 24) + [Letter(number % 24)]
  }

  // Padded on the left; longer numbers are not cut.
  function Padded(digits: seq<char>, length: nat): seq<char> {
    if |digits| < length then seq(length - |digits|, _ => Letter(0)) + digits else digits
  }

  function ToBase24(number: nat, length: nat): seq<char> { Padded(Digits(number), length) }

  // Exactly length digits.
  function Fixed(number: nat, length: nat): (s: seq<char>)
    ensures |s| == length
    decreases length
  {
    if length == 0 then [] else Fixed(number / 24, length - 1) + [Letter(number % 24)]
  }

  lemma {:induction false} ZeroDigits(length: nat)
    ensures Fixed(0, length) == seq(length, _ => Letter(0))
  {
    hide Letter;
    if length != 0 {
      ZeroDigits(length - 1);
    }
  }

  // A number that fits is written with exactly the digits asked for.
  lemma {:induction false} FittingDigits(number: nat, length: nat)
    requires number < Power24(length)
    ensures |Digits(number)| <= length && ToBase24(number, length) == Fixed(number, length)
    decreases length
  {
    hide Letter;
    if number == 0 {
      ZeroDigits(length);
      assert ToBase24(0, length) == seq(length, _ => Letter(0));
    } else {
      FittingDigits(number / 24, length - 1);
    }
  }

  // ----- The player's value of a string -----

  function Value(s: seq<char>): Option<nat> {
    if s == [] then Some(0)
    else
      var v, d := Value(s[..|s| - 1]), Position(s[|s| - 1], 0);
      if v.Some? && d.Some? then Some(v.value * 24 + d.value) else None
  }

  lemma {:induction false} FixedValue(number: nat, length: nat)
    requires number < Power24(length)
    ensures Value(Fixed(number, length)) == Some(number)
    decreases length
  {
    hide Letter, Position;
    if length != 0 {
      FixedValue(number / 24, length - 1);
      LetterPosition(number % 24, 0);
      var s := Fixed(number, length);
      assert s[..length - 1] == Fixed(number / 24, length - 1);
    }
  }

  lemma {:induction false} ValueBound(s: seq<char>)
    requires Value(s).Some?
    ensures Value(s).value < Power24(|s|)
  {
    hide Letter, Position;
    if s != [] {
      ValueBound(s[..|s| - 1]);
      PositionLetter(s[|s| - 1], 0);
    }
  }

  // The conversion loop; an unknown character makes the result 0. Thirteen digits fit 64 bits.
  method Convert(s: seq<char>) returns (value: nat)
    requires |s| <= 13
    ensures value == if Value(s).Some? then Value(s).value else 0
    ensures value < 0x1_0000_0000_0000_0000
  {
    hide Position;
    value := 0;
    var i := 0;
    while i < |s|
      invariant i <= |s|
      invariant Value(s[..i]) == Some(value) && value < Power24(i)
    {
      var d := Position(s[i], 0);
      assert s[..i + 1][..i] == s[..i];
      if d.None? {
        UnknownStays(s, i + 1);
        PowerBound(13);
        return 0;
      }
      PositionLetter(s[i], 0);
      value := value * 24 + d.value;
      i := i + 1;
    }
    assert s[..|s|] == s;
    PowerBound(|s|);
  }

  lemma {:induction false} UnknownStays(s: seq<char>, i: nat)
    requires i <= |s| && Value(s[..i]).None?
    ensures Value(s).None?
    decreases |s| - i
  {
    hide Position;
    if i == |s| {
      assert s[..i] == s;
    } else {
      assert s[..i + 1][..i] == s[..i];
      UnknownStays(s, i + 1);
    }
  }

  lemma PowerBound(n: nat)
    requires n <= 13
    ensures Power24(n) < 0x1_0000_0000_0000_0000
    ensures Power24(12) > 0x80_0000_0000_0000 && Power24(13) > 0x800_0000_0000_0000
  {
    assert Power24(4) == 331776;
    assert Power24(8) == 24 * 24 * 24 * 24 * Power24(4);
    assert Power24(12) == 24 * 24 * 24 * 24 * Power24(8);
    assert Power24(13) == 24 * Power24(12);
    PowerGrows(n, 13);
  }

  lemma {:induction false} PowerGrows(m: nat, n: nat)
    requires m <= n
    ensures Power24(m) <= Power24(n)
  {
    if m < n {
      PowerGrows(m, n - 1);
    }
  }

  // ----- Groups of five -----

  // Twenty-five characters in five groups with hyphens between.
  function Hyphenated(full: seq<char>): (s: seq<char>)
    requires |full| == 25
    ensures |s| == 29
  {
    full[..5] + ['-'] + full[5..10] + ['-'] + full[10..15] + ['-'] + full[15..20] + ['-'] + full[20..]
  }

  // The characters but the hyphens.
  function Plain(s: seq<char>): seq<char> {
    if s == [] then [] else Plain(s[..|s| - 1]) + if s[|s| - 1] == '-' then [] else [s[|s| - 1]]
  }

  predicate WellFormed(key: seq<char>) {
    |key| == 29
    && forall i | 0 <= i < 29 :: if i % 6 == 5 then key[i] == '-' else Position(key[i], 0).Some?
  }

  // Stops at the first character that does not fit, and at the end of the string.
  method ValidateFormat(key: seq<char>) returns (ok: bool)
    ensures ok == WellFormed(key)
  {
    hide Position;
    var i := 0;
    while i < 29
      invariant i <= 29 && i <= |key|
      invariant forall j | 0 <= j < i :: if j % 6 == 5 then key[j] == '-' else Position(key[j], 0).Some?
    {
      if i == |key| {
        return false;
      }
      if i % 6 == 5 {
        if '-' != key[i] {
          return false;
        }
      } else if Position(key[i], 0).None? {
        return false;
      }
      i := i + 1;
    }
    return |key| == 29;
  }

  ghost predicate AllLetters(s: seq<char>) {
    forall i | 0 <= i < |s| :: Position(s[i], 0).Some?
  }

  lemma {:induction false} FixedLetters(number: nat, length: nat)
    ensures AllLetters(Fixed(number, length))
    decreases length
  {
    hide Letter, Position;
    if length != 0 {
      FixedLetters(number / 24, length - 1);
      LetterPosition(number % 24, 0);
    }
  }

  lemma HyphenIsNoLetter()
    ensures Position('-', 0).None?
  {
    hide Letter;
    if Position('-', 0).Some? {
      PositionLetter('-', 0);
      NoHyphen(Position('-', 0).value);
    }
  }

  lemma NoHyphen(d: nat)
    requires d < 24
    ensures Letter(d) != '-'
  {
  }

  lemma {:induction false} PlainConcat(s: seq<char>, t: seq<char>)
    ensures Plain(s + t) == Plain(s) + Plain(t)
  {
    if t == [] {
      assert s + t == s;
    } else {
      assert (s + t)[..|s + t| - 1] == s + t[..|t| - 1];
      PlainConcat(s, t[..|t| - 1]);
    }
  }

  lemma {:induction false} PlainLetters(s: seq<char>)
    requires AllLetters(s)
    ensures Plain(s) == s
  {
    hide Position;
    if s != [] {
      HyphenIsNoLetter();
      PlainLetters(s[..|s| - 1]);
    }
  }

  lemma PlainGroup(s: seq<char>, g: seq<char>)
    requires AllLetters(g)
    ensures Plain(s + ['-'] + g) == Plain(s) + g
  {
    hide *;
    PlainConcat(s + ['-'], g);
    PlainConcat(s, ['-']);
    PlainHyphen();
    PlainLetters(g);
  }

  lemma PlainHyphen()
    ensures Plain(['-']) == []
  {
    assert Plain([]) == [];
  }

  lemma HyphenatedPlain(full: seq<char>)
    requires |full| == 25 && AllLetters(full)
    ensures Plain(Hyphenated(full)) == full && WellFormed(Hyphenated(full))
  {
    hide Position, Plain;
    var a, b, c, d, e := full[..5], full[5..10], full[10..15], full[15..20], full[20..];
    PlainLetters(a);
    PlainGroup(a, b);
    PlainGroup(a + ['-'] + b, c);
    PlainGroup(a + ['-'] + b + ['-'] + c, d);
    PlainGroup(a + ['-'] + b + ['-'] + c + ['-'] + d, e);
    assert a + b + c + d + e == full;
    HyphenatedForm(full);
  }

  lemma HyphenatedForm(full: seq<char>)
    requires |full| == 25 && AllLetters(full)
    ensures WellFormed(Hyphenated(full))
  {
    hide Position;
    var s := Hyphenated(full);
    forall i | 0 <= i < 29 ensures if i % 6 == 5 then s[i] == '-' else s[i] == full[i - i / 6] {
    }
  }

  lemma GroupLetters(s: seq<char>, g: nat)
    requires WellFormed(s) && g < 5
    ensures AllLetters(s[6 * g..6 * g + 5])
    ensures g < 4 ==> s[6 * g + 5] == '-'
  {
    hide Position;
    var t := s[6 * g..6 * g + 5];
    forall i | 0 <= i < |t| ensures Position(t[i], 0).Some? {
      assert (6 * g + i) % 6 == i;
      assert t[i] == s[6 * g + i];
    }
  }

  // A well-formed key has twenty-five letters.
  lemma WellFormedLetters(s: seq<char>)
    requires WellFormed(s)
    ensures |Plain(s)| == 25 && AllLetters(Plain(s))
  {
    hide *;
    HyphenPlaces(s);
    var a, b, c, d, e := s[0..5], s[6..11], s[12..17], s[18..23], s[24..29];
    FiveGroups(s);
    AllFive(a, b, c, d, e);
    HyphenatedPlain(a + b + c + d + e);
  }

  lemma HyphenPlaces(s: seq<char>)
    requires WellFormed(s)
    ensures |s| == 29 && s[5] == '-' && s[11] == '-' && s[17] == '-' && s[23] == '-'
    ensures AllLetters(s[0..5]) && AllLetters(s[6..11]) && AllLetters(s[12..17]) && AllLetters(s[18..23])
            && AllLetters(s[24..29])
  {
    assert |s| == 29;
    hide *;
    GroupLetters(s, 0);
    GroupLetters(s, 1);
    GroupLetters(s, 2);
    GroupLetters(s, 3);
    GroupLetters(s, 4);
  }

  lemma AllFive(a: seq<char>, b: seq<char>, c: seq<char>, d: seq<char>, e: seq<char>)
    requires AllLetters(a) && AllLetters(b) && AllLetters(c) && AllLetters(d) && AllLetters(e)
    ensures AllLetters(a + b + c + d + e)
  {
    hide Position;
  }

  lemma FiveGroups(s: seq<char>)
    requires |s| == 29 && s[5] == '-' && s[11] == '-' && s[17] == '-' && s[23] == '-'
    ensures s == Hyphenated(s[0..5] + s[6..11] + s[12..17] + s[18..23] + s[24..29])
  {
    var a, b, c, d, e := s[0..5], s[6..11], s[12..17], s[18..23], s[24..29];
    var full := a + b + c + d + e;
    assert full[..5] == a && full[5..10] == b && full[10..15] == c && full[15..20] == d && full[20..] == e;
  }

  lemma {:induction false} LettersHaveValue(s: seq<char>)
    requires AllLetters(s)
    ensures Value(s).Some?
  {
    hide Position;
    if s != [] {
      LettersHaveValue(s[..|s| - 1]);
    }
  }

  // Collects characters until there are twenty-five.
  method RemoveHyphens(src: seq<char>) returns (dst: seq<char>)
    requires |Plain(src)| == 25
    ensures dst == Plain(src)
  {
    dst := [];
    var i := 0;
    assert src[..|src|] == src;
    while |dst| < 25
      invariant i <= |src| && dst == Plain(src[..i]) && |dst| <= 25
      decreases |src| - i
    {
      assert src[..i + 1][..i] == src[..i];
      if '-' != src[i] {
        dst := dst + [src[i]];
      }
      i := i + 1;
    }
    assert src == src[..i] + src[i..];
    PlainConcat(src[..i], src[i..]);
    assert Plain(src[i..]) == [];
  }

  // The printed form of two numbers, of 13 and of 12 digits.
  function Format(left: nat, right: nat): (s: seq<char>)
    requires left < Power24(13) && right < Power24(12)
  {
    FittingDigits(left, 13);
    FittingDigits(right, 12);
    Hyphenated(ToBase24(left, 13) + ToBase24(right, 12))
  }

  // What is printed passes the player's check and is read back.
  lemma FormatReads(left: nat, right: nat)
    requires left < Power24(13) && right < Power24(12)
    ensures WellFormed(Format(left, right))
    ensures var full := Plain(Format(left, right));
      |full| == 25 && Value(full[..13]) == Some(left) && Value(full[13..]) == Some(right)
  {
    hide Letter, Position, Value, Power24, Plain, WellFormed, Fixed;
    FittingDigits(left, 13);
    FittingDigits(right, 12);
    var head, tail := Fixed(left, 13), Fixed(right, 12);
    FixedLetters(left, 13);
    FixedLetters(right, 12);
    HyphenatedPlain(head + tail);
    assert (head + tail)[..13] == head && (head + tail)[13..] == tail;
    FixedValue(left, 13);
    FixedValue(right, 12);
  }

  method DecodeRaw(src: seq<char>) returns (left: nat, right: nat)
    requires |Plain(src)| == 25
    ensures var full := Plain(src);
      && left == (if Value(full[..13]).Some? then Value(full[..13]).value else 0)
      && right == (if Value(full[13..]).Some? then Value(full[13..]).value else 0)
    ensures left < 0x1_0000_0000_0000_0000 && right < 0x1_0000_0000_0000_0000
  {
    var full := RemoveHyphens(src);
    left := Convert(full[..13]);
    right := Convert(full[13..]);
  }
}
