/** The text of a script as its entries (player/src/sld/loader.c, jump.c, call.c).

  The text is followed by a zero byte. A line that runs past the end of the text is read
  on in the original, with no defined result; here it fails to load.
*/
module Loader {
  import opened Bits
  import Bytes
  import Runner

  type Text = seq<byte>

  const CR: byte := 13
  const LF: byte := 10
  const SPACE: byte := 32
  // The longest content, and the longest name of a called script, that are let through.
  const LONGEST: nat := 256
  const LONGEST_NAME: nat := 30
  const LONGEST_DATA: nat := 40

  function At(t: Text, i: nat): byte { if i < |t| then t[i] else 0 }

  predicate IsSpace(c: byte) { c == SPACE || 9 <= c <= 13 }

  predicate IsDigit(c: byte) { 48 <= c <= 57 }

  predicate EndsLine(c: byte) { c == CR || c == LF }

  // The first position that is not of a kind.
  function Skip(t: Text, i: nat, kind: byte -> bool): (j: nat)
    requires i <= |t|
    ensures i <= j <= |t|
    ensures forall k | i <= k < j :: kind(t[k])
    ensures j < |t| ==> !kind(t[j])
    decreases |t| - i
  {
    if i < |t| && kind(t[i]) then Skip(t, i + 1, kind) else i
  }

  function SpaceEnd(t: Text, i: nat): (j: nat)
    requires i <= |t|
    ensures i <= j <= |t|
  {
    Skip(t, i, IsSpace)
  }

  function LineEnd(t: Text, i: nat): (j: nat)
    requires i <= |t|
    ensures i <= j <= |t|
  {
    Skip(t, i, (c: byte) => !EndsLine(c))
  }

  // ----- Numbers and contents -----

  predicate AllDigits(s: seq<byte>) { forall k | 0 <= k < |s| :: IsDigit(s[k]) }

  // Decimal digits in a 16-bit word: what does not fit is lost.
  function Number(s: seq<byte>): word16
    requires AllDigits(s)
  {
    if s == [] then 0 else (Number(s[..|s| - 1]) * 10 % 0x1_0000 + (s[|s| - 1] - 48)) % 0x1_0000
  }

  // The value is there even if the number is not accepted.
  datatype Unsigned = Unsigned(value: word16, ok: bool, next: nat)

  function LoadU(t: Text, i: nat): (u: Unsigned)
    requires i <= |t|
    ensures i <= u.next <= |t| && (u.ok ==> i < u.next)
  {
    var a := SpaceEnd(t, i);
    var b := Skip(t, a, IsDigit);
    var value := Number(t[a..b]);
    if b < |t| && IsSpace(t[b]) then Unsigned(value, true, SpaceEnd(t, b)) else Unsigned(value, false, i)
  }

  // A string ends at its first zero.
  function CString(s: seq<byte>): seq<byte> {
    if s == [] || s[0] == 0 then [] else [s[0]] + CString(s[1..])
  }

  datatype Parsed<T> = Ok(value: T, next: nat) | Bad

  // A text up to the end of the line.
  function Content(t: Text, i: nat): (p: Parsed<seq<byte>>)
    requires i <= |t|
    ensures p.Ok? ==> i <= p.next < |t|
  {
    var a := SpaceEnd(t, i);
    var b := LineEnd(t, a);
    if b == |t| || LONGEST < b - a then Bad else Ok(CString(t[a..b]), b)
  }

  datatype Across = Column(x: word16) | Left | Right | Center

  function Position(t: Text, i: nat): (p: Parsed<(word16, Across)>)
    requires i <= |t|
    ensures p.Ok? ==> i + 2 <= p.next <= |t|
  {
    var y := LoadU(t, i);
    if !y.ok then Bad
    else
      var x := LoadU(t, y.next);
      if x.ok then Ok((y.value, Column(x.value)), x.next)
      else if At(t, y.next) == 60 then Ok((y.value, Left), y.next + 1)
      else if At(t, y.next) == 62 then Ok((y.value, Right), y.next + 1)
      else if At(t, y.next) == 94 then Ok((y.value, Center), y.next + 1)
      else Bad
  }

  function ScriptName(t: Text, i: nat): (p: Parsed<seq<byte>>)
    requires i <= |t|
    ensures p.Ok? ==> i < p.next < |t| && IsSpace(t[p.next])
  {
    var a := SpaceEnd(t, i);
    var b := Skip(t, a, (c: byte) => !IsSpace(c));
    if b == |t| || LONGEST_NAME < b - a then Bad else Ok(t[a..b], b)
  }

  // Behind a number that may be missing: the result -1 is added like any other length.
  function Past(t: Text, i: nat): (j: nat)
    requires 0 < i <= |t|
    ensures i - 1 <= j <= |t|
  {
    if LoadU(t, i).ok then LoadU(t, i).next else i - 1
  }

  datatype ShapeParts = ShapeParts(y: word16, x: Across, width: word16, height: word16, colour: seq<byte>)

  // A place, a size and a colour, by its letter or in any other form.
  function Shape(t: Text, i: nat): (p: Parsed<ShapeParts>)
    requires i <= |t|
  {
    match Position(t, i)
    case Bad => Bad
    case Ok((y, x), a) =>
      var b := Past(t, a);
      var c := Past(t, b);
      var width, height := LoadU(t, a).value, LoadU(t, b).value;
      if At(t, c) in {66, 71, 87} then Ok(ShapeParts(y, x, width, height, [t[c]]), c + 1)
      else
        match Content(t, c)
        case Bad => Bad
        case Ok(colour, d) => Ok(ShapeParts(y, x, width, height, colour), d + 1)
  }

  datatype AreaParts = AreaParts(y: word16, x: Across, width: word16, height: word16, area: word16)

  function Area(t: Text, i: nat): (p: Parsed<AreaParts>)
    requires 0 < i <= |t|
  {
    match Position(t, i)
    case Bad => Bad
    case Ok((y, x), a) =>
      var b := Past(t, a);
      var c := Past(t, b);
      Ok(AreaParts(y, x, LoadU(t, a).value, LoadU(t, b).value, LoadU(t, c).value), Past(t, c) + 1)
  }

  predicate IsHex(c: byte) { IsDigit(c) || 65 <= c <= 70 || 97 <= c <= 102 }

  predicate HexDigits(s: seq<byte>) { forall k | 0 <= k < |s| :: IsHex(s[k]) }

  function HexNumber(s: seq<byte>): nat
    requires HexDigits(s)
  {
    if s == [] then 0
    else
      var c := s[|s| - 1];
      HexNumber(s[..|s| - 1]) * 16 + if c < 65 then c - 48 else if c < 97 then c - 55 else c - 87
  }

  // What does not fit is the largest number there is.
  function HexWord(s: seq<byte>): word32
    requires HexDigits(s)
  {
    if HexNumber(s) < 0x1_0000_0000 then HexNumber(s) else 0xFFFF_FFFF
  }

  datatype Hex = Hex(value: word32, next: nat)

  // A hexadecimal number (strtoul), which may have a sign and a prefix; if there is none, nothing is read.
  function Strtoul(t: Text, i: nat): (h: Hex)
    requires i <= |t|
    ensures i <= h.next <= |t|
  {
    var a := SpaceEnd(t, i);
    var b := if At(t, a) in {43, 45} then a + 1 else a;
    var c := if At(t, b) == 48 && At(t, b + 1) in {88, 120} && IsHex(At(t, b + 2)) then b + 2 else b;
    var d := Skip(t, c, IsHex);
    if d == c then Hex(0, i)
    else
      var n := HexNumber(t[c..d]);
      var negative := At(t, a) == 45 && 0 < n < 0x1_0000_0000;
      Hex(if negative then 0x1_0000_0000 - n else HexWord(t[c..d]), d)
  }

  // What is loaded for the call of a script.
  datatype CallParts = CallParts(name: seq<byte>, kind: word16, crc: word32, parameter: word16, data: seq<byte>)

  // The name of the script as it is read from the entry. The longest names leave no room for a terminator in their
  // field, and run on into the fields behind.
  function NameOf(c: CallParts): seq<byte> {
    CString(if |c.name| < LONGEST_NAME then c.name
            else c.name + Bytes.ToLittleEndian(c.kind, 2) + Bytes.ToLittleEndian(c.crc, 4)
                 + Bytes.ToLittleEndian(c.parameter, 2) + c.data)
  }

  // A script to call. Behind the name of encrypted content are its method, CRC and parameter, and then its data.
  function Called(t: Text, i: nat): (p: Parsed<CallParts>)
    requires 0 < i <= |t|
  {
    match ScriptName(t, i)
    case Bad => Bad
    case Ok(name, a) =>
      if EndsLine(t[a]) then Ok(CallParts(name, 0, 0, 0, []), a)
      else
        var crc := Strtoul(t, Past(t, a));
        var c := Past(t, crc.next);
        var d := LineEnd(t, c);
        if d == |t| || LONGEST_DATA < d - c then Bad
        else Ok(CallParts(name, LoadU(t, a).value, crc.value, LoadU(t, crc.next).value, t[c..d]), d)
  }

  // ----- Entries -----

  function Accepted<T>(p: Parsed<T>, make: T -> Runner.Entry): Parsed<Runner.Entry> {
    match p
    case Ok(value, next) => Ok(make(value), next)
    case Bad => Bad
  }

  // What follows the tag of an entry.
  function Tagged(t: Text, tag: byte, cur: nat): Parsed<Runner.Entry>
    requires 0 < cur <= |t|
  {
    if tag == 75 then Ok(Runner.Wait, cur)
    else if tag == 80 then Accepted(Content(t, cur), _ => Runner.Other)
    else if tag == 63 then Accepted(Content(t, cur), _ => Runner.Query)
    else if tag == 74 then Accepted(Content(t, cur), target => Runner.Jump(target))
    else if tag == 61 then
      (var u := LoadU(t, cur);
       if u.ok then Accepted(Content(t, u.next), target => Runner.JumpIf(u.value, target)) else Bad)
    else if tag == 33 then Accepted(Called(t, cur), c => Runner.Call(NameOf(c), c.kind == 0))
    else if tag in {84, 66} then
      (match Position(t, cur)
       case Bad => Bad
       case Ok(_, next) => Accepted(Content(t, next), _ => Runner.Other))
    else if tag in {82, 114} then Accepted(Shape(t, cur), _ => Runner.Other)
    else if tag == 65 then Accepted(Area(t, cur), _ => Runner.Other)
    else Bad
  }

  // The rest of the line and the line ends behind it belong to the entry.
  function Ended(t: Text, offset: nat, entry: Runner.Entry, delayed: bool, cur: nat): (r: Runner.Loaded)
    requires offset < cur <= |t|
    ensures r.Loaded? ==> offset + r.length <= |t|
  {
    var e := LineEnd(t, cur);
    if e == |t| then Runner.LoadError else Runner.Loaded(entry, delayed, Skip(t, e, EndsLine) - offset)
  }

  function LoadEntry(t: Text, offset: nat): (r: Runner.Loaded)
    ensures r.Loaded? ==> offset + r.length <= |t|
  {
    if |t| <= offset then Runner.LoadError
    else if t[offset] == CR then
      Runner.Loaded(Runner.Blank, false, if offset + 1 < |t| && t[offset + 1] == LF then 2 else 1)
    else if t[offset] == 58 then
      match Content(t, offset + 1)
      case Bad => Runner.LoadError
      case Ok(name, next) => Ended(t, offset, Runner.Label(name), false, next)
    else
      var u := LoadU(t, offset);
      if !u.ok || u.next == |t| then Runner.LoadError
      else
        match Tagged(t, t[u.next], u.next + 1)
        case Bad => Runner.LoadError
        case Ok(entry, _) => Ended(t, offset, entry, u.value != 0, u.next + 1)
  }

  function ScriptOf(t: Text): Runner.Script { Runner.Script(|t|, (offset: nat) => LoadEntry(t, offset)) }

  // ----- Reading a text with a cursor -----

  method ReadU(t: Text, i: nat) returns (u: Unsigned)
    requires i <= |t|
    ensures u == LoadU(t, i)
  {
    hide Number, LoadU, Skip;
    var cur, out: word16 := i, 0;
    while cur < |t| && IsSpace(t[cur])
      invariant i <= cur <= |t| && SpaceEnd(t, i) == SpaceEnd(t, cur)
    {
      SkipStep(t, cur, IsSpace);
      cur := cur + 1;
    }
    ghost var a := cur;
    assert t[a..cur] == [];
    NoDigits();
    while cur < |t| && IsDigit(t[cur])
      invariant a <= cur <= |t| && Skip(t, a, IsDigit) == Skip(t, cur, IsDigit)
      invariant AllDigits(t[a..cur])
      invariant out == Number(t[a..cur])
    {
      SkipStep(t, cur, IsDigit);
      OneDigit(t[a..cur], t[cur]);
      assert t[a..cur + 1] == t[a..cur] + [t[cur]];
      out := out * 10 % 0x1_0000;
      out := (out + (t[cur] - 48)) % 0x1_0000;
      cur := cur + 1;
    }
    ghost var b := cur;
    LoadUIs(t, i, a, b);
    if cur == |t| || !IsSpace(t[cur]) {
      return Unsigned(out, false, i);
    }
    while cur < |t| && IsSpace(t[cur])
      invariant b <= cur <= |t| && SpaceEnd(t, b) == SpaceEnd(t, cur)
    {
      SkipStep(t, cur, IsSpace);
      cur := cur + 1;
    }
    u := Unsigned(out, true, cur);
  }

  lemma SkipStep(t: Text, i: nat, kind: byte -> bool)
    requires i < |t| && kind(t[i])
    ensures Skip(t, i, kind) == Skip(t, i + 1, kind)
  {
  }

  lemma LoadUIs(t: Text, i: nat, a: nat, b: nat)
    requires i <= |t| && a == SpaceEnd(t, i) && b == Skip(t, a, IsDigit)
    ensures AllDigits(t[a..b])
    ensures LoadU(t, i) == if b < |t| && IsSpace(t[b]) then Unsigned(Number(t[a..b]), true, SpaceEnd(t, b))
                           else Unsigned(Number(t[a..b]), false, i)
  {
    hide Number, Skip;
  }

  lemma NoDigits()
    ensures Number([]) == 0
  {
  }

  lemma OneDigit(s: seq<byte>, c: byte)
    requires IsDigit(c) && AllDigits(s)
    ensures AllDigits(s + [c])
    ensures Number(s + [c]) == (Number(s) * 10 % 0x1_0000 + (c - 48)) % 0x1_0000
  {
    assert (s + [c])[..|s|] == s;
  }

  method ReadContent(t: Text, i: nat) returns (p: Parsed<seq<byte>>)
    requires i <= |t|
    ensures p == Content(t, i)
  {
    var cur := i;
    while cur < |t| && IsSpace(t[cur])
      invariant i <= cur <= |t| && SpaceEnd(t, i) == SpaceEnd(t, cur)
    {
      cur := cur + 1;
    }
    ghost var a := cur;
    var content := [];
    while cur < |t| && !EndsLine(t[cur])
      invariant a <= cur <= |t| && LineEnd(t, a) == LineEnd(t, cur) && content == t[a..cur] && |content| <= LONGEST
    {
      if LONGEST - 1 < |content| {
        return Bad;
      }
      content := content + [t[cur]];
      cur := cur + 1;
    }
    p := if cur == |t| then Bad else Ok(CString(content), cur);
  }

  method ReadPosition(t: Text, i: nat) returns (p: Parsed<(word16, Across)>)
    requires i <= |t|
    ensures p == Position(t, i)
  {
    hide LoadU;
    var y := ReadU(t, i);
    if !y.ok {
      return Bad;
    }
    var x := ReadU(t, y.next);
    if x.ok {
      return Ok((y.value, Column(x.value)), x.next);
    }
    match At(t, y.next) {
      case 60 => p := Ok((y.value, Left), y.next + 1);
      case 62 => p := Ok((y.value, Right), y.next + 1);
      case 94 => p := Ok((y.value, Center), y.next + 1);
      case _ => p := Bad;
    }
  }

  method ReadScriptName(t: Text, i: nat) returns (p: Parsed<seq<byte>>)
    requires i <= |t|
    ensures p == ScriptName(t, i)
  {
    var cur := i;
    while cur < |t| && IsSpace(t[cur])
      invariant i <= cur <= |t| && SpaceEnd(t, i) == SpaceEnd(t, cur)
    {
      cur := cur + 1;
    }
    ghost var a := cur;
    var name := [];
    while cur < |t| && !IsSpace(t[cur])
      invariant a <= cur <= |t| && name == t[a..cur] && |name| <= LONGEST_NAME
      invariant Skip(t, a, (c: byte) => !IsSpace(c)) == Skip(t, cur, (c: byte) => !IsSpace(c))
    {
      if LONGEST_NAME - 1 < |name| {
        return Bad;
      }
      name := name + [t[cur]];
      cur := cur + 1;
    }
    p := if cur == |t| then Bad else Ok(name, cur);
  }

  method ReadShape(t: Text, i: nat) returns (p: Parsed<ShapeParts>)
    requires i <= |t|
    ensures p == Shape(t, i)
  {
    hide LoadU, Position, Content;
    var place := ReadPosition(t, i);
    if place.Bad? {
      return Bad;
    }
    var cur := place.next;
    var width := ReadU(t, cur);
    cur := if width.ok then width.next else cur - 1;
    var height := ReadU(t, cur);
    cur := if height.ok then height.next else cur - 1;
    if At(t, cur) in {66, 71, 87} {
      return Ok(ShapeParts(place.value.0, place.value.1, width.value, height.value, [t[cur]]), cur + 1);
    }
    var colour := ReadContent(t, cur);
    if colour.Bad? {
      return Bad;
    }
    p := Ok(ShapeParts(place.value.0, place.value.1, width.value, height.value, colour.value), colour.next + 1);
  }

  method ReadArea(t: Text, i: nat) returns (p: Parsed<AreaParts>)
    requires 0 < i <= |t|
    ensures p == Area(t, i)
  {
    hide LoadU, Position;
    var place := ReadPosition(t, i);
    if place.Bad? {
      return Bad;
    }
    var cur := place.next;
    var width := ReadU(t, cur);
    cur := if width.ok then width.next else cur - 1;
    var height := ReadU(t, cur);
    cur := if height.ok then height.next else cur - 1;
    var area := ReadU(t, cur);
    cur := if area.ok then area.next else cur - 1;
    p := Ok(AreaParts(place.value.0, place.value.1, width.value, height.value, area.value), cur + 1);
  }

  method ReadCall(t: Text, i: nat) returns (p: Parsed<CallParts>)
    requires 0 < i <= |t|
    ensures p == Called(t, i)
  {
    hide LoadU, ScriptName, Strtoul, Skip, LineEnd;
    var name := ReadScriptName(t, i);
    if name.Bad? {
      return Bad;
    }
    var cur := name.next;
    if EndsLine(t[cur]) {
      return Ok(CallParts(name.value, 0, 0, 0, []), cur);
    }
    var kind := ReadU(t, cur);
    cur := if kind.ok then kind.next else cur - 1;
    var crc := Strtoul(t, cur);
    cur := crc.next;
    var parameter := ReadU(t, cur);
    cur := if parameter.ok then parameter.next else cur - 1;
    ghost var c := cur;
    assert c == Past(t, Strtoul(t, Past(t, name.next)).next);
    var data := [];
    while cur < |t| && !EndsLine(t[cur])
      invariant c <= cur <= |t| && LineEnd(t, c) == LineEnd(t, cur) && data == t[c..cur] && |data| <= LONGEST_DATA
    {
      LineStep(t, cur);
      if LONGEST_DATA - 1 < |data| {
        return Bad;
      }
      data := data + [t[cur]];
      cur := cur + 1;
    }
    LineHere(t, cur);
    p := if cur == |t| then Bad
         else Ok(CallParts(name.value, kind.value, crc.value, parameter.value, data), cur);
  }

  lemma LineStep(t: Text, i: nat)
    requires i < |t| && !EndsLine(t[i])
    ensures LineEnd(t, i) == LineEnd(t, i + 1)
  {
  }

  lemma LineHere(t: Text, i: nat)
    requires i <= |t| && (i < |t| ==> EndsLine(t[i]))
    ensures LineEnd(t, i) == i
  {
  }

  // The entry that a tag introduces.
  method ReadTagged(t: Text, tag: byte, cur: nat) returns (p: Parsed<Runner.Entry>)
    requires 0 < cur <= |t|
    ensures p == Tagged(t, tag, cur)
  {
    hide LoadU, Content, Position, Called, Shape, Area, NameOf;
    if tag == 75 {
      return Ok(Runner.Wait, cur);
    } else if tag in {80, 63, 74} {
      var c := ReadContent(t, cur);
      if c.Ok? {
        return Ok(if tag == 80 then Runner.Other else if tag == 63 then Runner.Query else Runner.Jump(c.value), c.next);
      }
    } else if tag == 61 {
      var u := ReadU(t, cur);
      if u.ok {
        var c := ReadContent(t, u.next);
        if c.Ok? {
          return Ok(Runner.JumpIf(u.value, c.value), c.next);
        }
      }
    } else if tag == 33 {
      var call := ReadCall(t, cur);
      if call.Ok? {
        return Ok(Runner.Call(NameOf(call.value), call.value.kind == 0), call.next);
      }
    } else if tag in {82, 114} {
      var shape := ReadShape(t, cur);
      if shape.Ok? {
        return Ok(Runner.Other, shape.next);
      }
    } else if tag == 65 {
      var area := ReadArea(t, cur);
      if area.Ok? {
        return Ok(Runner.Other, area.next);
      }
    } else if tag in {84, 66} {
      var place := ReadPosition(t, cur);
      if place.Ok? {
        var c := ReadContent(t, place.next);
        if c.Ok? {
          return Ok(Runner.Other, c.next);
        }
      }
    }
    p := Bad;
  }

  // To the end of the line, and over all line ends that follow.
  method ReadEnd(t: Text, offset: nat, entry: Runner.Entry, delayed: bool, from: nat) returns (r: Runner.Loaded)
    requires offset < from <= |t|
    ensures r == Ended(t, offset, entry, delayed, from)
  {
    var cur := from;
    while cur < |t| && !EndsLine(t[cur])
      invariant from <= cur <= |t| && LineEnd(t, from) == LineEnd(t, cur)
    {
      cur := cur + 1;
    }
    if cur == |t| {
      return Runner.LoadError;
    }
    ghost var e := cur;
    while cur < |t| && EndsLine(t[cur])
      invariant e <= cur <= |t| && Skip(t, e, EndsLine) == Skip(t, cur, EndsLine)
    {
      cur := cur + 1;
    }
    r := Runner.Loaded(entry, delayed, cur - offset);
  }

  method ReadEntry(t: Text, offset: nat) returns (r: Runner.Loaded)
    requires offset < |t|
    ensures r == LoadEntry(t, offset)
  {
    hide LoadU, Content, Tagged, Ended;
    if t[offset] == CR {
      return Runner.Loaded(Runner.Blank, false, if offset + 1 < |t| && t[offset + 1] == LF then 2 else 1);
    }
    if t[offset] == 58 {
      var name := ReadContent(t, offset + 1);
      if name.Bad? {
        return Runner.LoadError;
      }
      r := ReadEnd(t, offset, Runner.Label(name.value), false, name.next);
      return;
    }
    var u := ReadU(t, offset);
    if !u.ok || u.next == |t| {
      return Runner.LoadError;
    }
    var entry := ReadTagged(t, t[u.next], u.next + 1);
    if entry.Bad? {
      return Runner.LoadError;
    }
    r := ReadEnd(t, offset, entry.value, u.value != 0, u.next + 1);
  }

  // ----- Printed lines -----

  datatype Command =
    | DoWait | DoQuery(text: seq<byte>) | DoPlay(text: seq<byte>) | DoJump(target: seq<byte>)
    | DoJumpIf(value: word16, target: seq<byte>) | DoCall(script: seq<byte>)
    | DoDecode(script: seq<byte>, kind: word16, crc: seq<byte>, parameter: word16, data: seq<byte>)
    | DoText(y: word16, x: Across, text: seq<byte>) | DoPicture(y: word16, x: Across, text: seq<byte>)
    | DoShape(y: word16, x: Across, width: word16, height: word16, text: seq<byte>, filled: bool)
    | DoArea(y: word16, x: Across, width: word16, height: word16, area: word16)

  datatype Line = Mark(name: seq<byte>) | Do(delay: word16, what: Command)

  predicate TextOk(s: seq<byte>) {
    0 < |s| <= LONGEST && !IsSpace(s[0]) && forall k | 0 <= k < |s| :: s[k] != 0 && !EndsLine(s[k])
  }

  predicate NameOk(s: seq<byte>) {
    0 < |s| <= LONGEST_NAME && forall k | 0 <= k < |s| :: s[k] != 0 && !IsSpace(s[k])
  }

  predicate AllHex(s: seq<byte>) { 0 < |s| && HexDigits(s) }

  predicate CommandOk(c: Command) {
    match c
    case DoWait => true
    case DoQuery(text) => TextOk(text)
    case DoPlay(text) => TextOk(text)
    case DoJump(target) => TextOk(target)
    case DoJumpIf(_, target) => TextOk(target)
    case DoCall(script) => NameOk(script)
    case DoDecode(script, kind, crc, _, data) =>
      && NameOk(script) && kind != 0 && AllHex(crc) && |data| <= LONGEST_DATA
      && (if data == [] then |script| < LONGEST_NAME else TextOk(data))
    case DoText(_, _, text) => TextOk(text)
    case DoPicture(_, _, text) => TextOk(text)
    case DoShape(_, _, _, _, text, _) => TextOk(text)
    case DoArea(_, _, _, _, _) => true
  }

  // A call of encrypted content without data: the player takes the next line for the data.
  predicate Bare(l: Line) { l.Do? && l.what.DoDecode? && l.what.data == [] }

  predicate LineOk(l: Line) { if l.Mark? then TextOk(l.name) else CommandOk(l.what) }

  function Digits(n: nat): (s: seq<byte>)
    ensures s != [] && AllDigits(s)
  {
    if n < 10 then [48 + n] else Digits(n / 10) + [48 + n % 10]
  }

  function Print(l: Line): seq<byte> {
    match l
    case Mark(name) => [58] + name + [CR, LF]
    case Do(delay, what) => Spaced(delay) + PrintCommand(what) + [CR, LF]
  }

  // A number and the space behind it.
  function Spaced(n: nat): (s: seq<byte>)
    ensures s != [] && !IsSpace(s[0])
    ensures forall k | 0 <= k < |s| :: !EndsLine(s[k])
  {
    Digits(n) + [SPACE]
  }

  function PrintAcross(x: Across): (s: seq<byte>)
    ensures s != [] && !IsSpace(s[0])
    ensures forall k | 0 <= k < |s| :: !EndsLine(s[k])
  {
    match x
    case Column(n) => Spaced(n)
    case Left => [60]
    case Right => [62]
    case Center => [94]
  }

  function PrintPlace(y: word16, x: Across): (s: seq<byte>)
    ensures forall k | 0 <= k < |s| :: !EndsLine(s[k])
  {
    Spaced(y) + PrintAcross(x)
  }

  function PrintData(parameter: word16, data: seq<byte>): seq<byte> {
    if data == [] then Digits(parameter) else Spaced(parameter) + data
  }

  function PrintCommand(c: Command): (s: seq<byte>)
    ensures s != [] && !IsSpace(s[0])
  {
    match c
    case DoWait => [75]
    case DoQuery(text) => [63] + text
    case DoPlay(text) => [80] + text
    case DoJump(target) => [74] + target
    case DoJumpIf(value, target) => [61] + (Spaced(value) + target)
    case DoCall(script) => [33] + script
    case DoDecode(script, kind, crc, parameter, data) =>
      [33] + (script + [SPACE] + (Spaced(kind) + (crc + [SPACE] + PrintData(parameter, data))))
    case DoText(y, x, text) => [84] + (PrintPlace(y, x) + text)
    case DoPicture(y, x, text) => [66] + (PrintPlace(y, x) + text)
    case DoShape(y, x, width, height, text, filled) =>
      [if filled then 114 else 82] + (PrintPlace(y, x) + (Spaced(width) + (Spaced(height) + text)))
    case DoArea(y, x, width, height, area) =>
      [65] + (PrintPlace(y, x) + (Spaced(width) + (Spaced(height) + Digits(area))))
  }

  function Meaning(l: Line): Runner.Entry {
    match l
    case Mark(name) => Runner.Label(name)
    case Do(_, DoWait) => Runner.Wait
    case Do(_, DoQuery(_)) => Runner.Query
    case Do(_, DoJump(target)) => Runner.Jump(target)
    case Do(_, DoJumpIf(value, target)) => Runner.JumpIf(value, target)
    case Do(_, DoCall(script)) => Runner.Call(script, true)
    case Do(_, DoDecode(script, kind, crc, parameter, data)) =>
      Runner.Call(if AllHex(crc) then NameOf(CallParts(script, kind, HexWord(crc), parameter, data)) else script, false)
    case _ => Runner.Other
  }

  lemma {:induction false} NumberOfDigits(n: word16)
    ensures Number(Digits(n)) == n
  {
    if n < 10 {
      assert Digits(n)[..0] == [];
    } else {
      NumberOfDigits(n / 10);
      OneDigit(Digits(n / 10), 48 + n % 10);
    }
  }

  lemma {:induction false} NoZero(s: seq<byte>)
    requires forall k | 0 <= k < |s| :: s[k] != 0
    ensures CString(s) == s
  {
    if s != [] {
      NoZero(s[1..]);
    }
  }

  lemma SkipTo(t: Text, i: nat, kind: byte -> bool, j: nat)
    requires i <= j <= |t| && (j < |t| ==> !kind(t[j]))
    requires forall k | i <= k < j :: kind(t[k])
    ensures Skip(t, i, kind) == j
  {
    var s := Skip(t, i, kind);
  }

  // What lies at a place of a text.
  ghost predicate Has(t: Text, i: nat, s: seq<byte>) { i + |s| <= |t| && t[i..i + |s|] == s }

  lemma HasBoth(t: Text, i: nat, a: seq<byte>, b: seq<byte>)
    requires Has(t, i, a + b)
    ensures Has(t, i, a) && Has(t, i + |a|, b)
  {
    assert t[i..i + |a|] == t[i..i + |a + b|][..|a|];
    assert t[i + |a|..i + |a| + |b|] == t[i..i + |a + b|][|a|..];
  }

  lemma HasFirst(t: Text, i: nat, s: seq<byte>)
    requires Has(t, i, s) && s != []
    ensures t[i] == s[0]
  {
    assert t[i] == t[i..i + |s|][0];
  }

  // A number that is printed before something that is no space is read back.
  lemma ReadsNumber(t: Text, i: nat, n: word16)
    requires var next := i + |Spaced(n)|; Has(t, i, Spaced(n)) && next < |t| && !IsSpace(t[next])
    ensures LoadU(t, i) == Unsigned(n, true, i + |Spaced(n)|)
  {
    hide Digits, Number, Skip;
    var d, next := Digits(n), i + |Spaced(n)|;
    var b := i + |d|;
    assert forall k | 0 <= k < |d| :: t[i + k] == t[i..next][k] == d[k];
    assert t[b] == t[i..next][|d|] == SPACE;
    assert t[i..b] == d;
    SkipTo(t, i, IsSpace, i);
    SkipTo(t, i, IsDigit, b);
    SkipTo(t, b, IsSpace, next);
    NumberOfDigits(n);
  }

  lemma ReadsContent(t: Text, i: nat, s: seq<byte>)
    requires TextOk(s) && Has(t, i, s) && i + |s| < |t| && EndsLine(t[i + |s|])
    ensures Content(t, i) == Ok(s, i + |s|)
  {
    hide Skip, CString;
    assert forall k | 0 <= k < |s| :: t[i + k] == t[i..i + |s|][k] == s[k];
    SkipTo(t, i, IsSpace, i);
    var c := (c: byte) => !EndsLine(c);
    assert forall k | i <= k < i + |s| :: t[k] == s[k - i];
    SkipTo(t, i, c, i + |s|);
    LineEndIs(t, i, i + |s|);
    NoZero(s);
  }

  lemma LineEndIs(t: Text, i: nat, j: nat)
    requires i <= j < |t| && EndsLine(t[j]) && forall k | i <= k < j :: !EndsLine(t[k])
    ensures LineEnd(t, i) == j
  {
    var e := LineEnd(t, i);
    assert e == Skip(t, i, (c: byte) => !EndsLine(c));
  }

  lemma ReadsName(t: Text, i: nat, s: seq<byte>)
    requires NameOk(s) && i + |s| < |t| && t[i..i + |s|] == s && IsSpace(t[i + |s|])
    ensures ScriptName(t, i) == Ok(s, i + |s|)
  {
    hide Skip, CString;
    assert forall k | i <= k < i + |s| :: t[k] == t[i..i + |s|][k - i] == s[k - i];
    assert !IsSpace(t[i]);
    SkipTo(t, i, IsSpace, i);
    var c := (c: byte) => !IsSpace(c);
    SkipTo(t, i, c, i + |s|);
    NoZero(s);
    NameEndIs(t, i, i + |s|);
  }

  lemma NameEndIs(t: Text, i: nat, j: nat)
    requires i <= j < |t| && IsSpace(t[j]) && forall k | i <= k < j :: !IsSpace(t[k])
    ensures Skip(t, i, (c: byte) => !IsSpace(c)) == j
  {
    var e := Skip(t, i, (c: byte) => !IsSpace(c));
  }

  // A printed position is read back, whether it is a column or an alignment.
  lemma ReadsPosition(t: Text, i: nat, y: word16, x: Across)
    requires var next := i + |PrintPlace(y, x)|; Has(t, i, PrintPlace(y, x)) && next < |t| && !IsSpace(t[next])
    ensures Position(t, i) == Ok((y, x), i + |PrintPlace(y, x)|)
  {
    hide Spaced, LoadU, Has;
    var middle := i + |Spaced(y)|;
    HasBoth(t, i, Spaced(y), PrintAcross(x));
    HasFirst(t, middle, PrintAcross(x));
    HasInside(t, middle, PrintAcross(x));
    ReadsNumber(t, i, y);
    if x.Column? {
      ReadsNumber(t, middle, x.x);
    } else {
      NoNumber(t, middle);
    }
  }

  lemma HasInside(t: Text, i: nat, s: seq<byte>)
    requires Has(t, i, s)
    ensures i + |s| <= |t|
  {
  }

  lemma NoNumber(t: Text, i: nat)
    requires i < |t| && !IsSpace(t[i]) && !IsDigit(t[i])
    ensures !LoadU(t, i).ok
  {
    SkipTo(t, i, IsSpace, i);
    SkipTo(t, i, IsDigit, i);
  }

  // What follows the tag is read as it was printed.
  lemma ReadsCommand(t: Text, i: nat, l: Line, c: Command)
    requires LineOk(l) && l.Do? && l.what == c && !Bare(l)
    requires var s := PrintCommand(c); i + |s| < |t| && t[i..i + |s|] == s && EndsLine(t[i + |s|])
    ensures var r := Tagged(t, t[i], i + 1); r.Ok? && r.value == Meaning(l)
  {
    hide Tagged, CommandOk, Meaning, Has;
    var s := PrintCommand(c);
    hide PrintCommand;
    var end := i + |s|;
    assert t[i] == t[i..end][0] == s[0];
    assert t[i + 1..end] == t[i..end][1..] == s[1..];
    HasThat(t, i + 1, s[1..]);
    if c.DoText? || c.DoPicture? || c.DoShape? || c.DoArea? {
      ReadsPlacedCommand(t, i, l);
    } else if c.DoCall? || c.DoDecode? {
      ReadsCallCommand(t, i, l);
    } else {
      ReadsPlainCommand(t, i, l);
    }
  }

  // A call without data is accepted if the next line is short enough for data.
  lemma ReadsBareCommand(t: Text, i: nat, l: Line)
    requires LineOk(l) && Bare(l)
    requires var s := PrintCommand(l.what); i + |s| < |t| && t[i..i + |s|] == s && EndsLine(t[i + |s|])
    ensures var r := Tagged(t, t[i], i + 1);
      (r.Ok? <==> DataFits(t, i + |PrintCommand(l.what)|)) && (r.Ok? ==> r.value == Meaning(l))
  {
    hide Spaced, Digits, LoadU, Content, Called, Position, Shape, TextOk, EndsLine, Has, AllHex, DataFits, HexWord;
    hide CString, NameOk;
    var s := PrintCommand(l.what);
    var end := i + |s|;
    assert t[i] == t[i..end][0] == s[0];
    assert t[i + 1..end] == t[i..end][1..] == s[1..];
    HasThat(t, i + 1, s[1..]);
    ReadsBareCall(t, i + 1, l.what.script, l.what.kind, l.what.crc, l.what.parameter);
  }

  // What is behind a line end is data: the rest of the first line that is not empty.
  predicate DataFits(t: Text, end: nat) {
    end <= |t|
    && var c := SpaceEnd(t, end); var d := LineEnd(t, c);
       d < |t| && d - c <= LONGEST_DATA
  }

  lemma HasThat(t: Text, i: nat, s: seq<byte>)
    requires i + |s| <= |t| && t[i..i + |s|] == s
    ensures Has(t, i, s)
  {
  }

  // A command behind its tag.
  ghost predicate Behind(t: Text, i: nat, c: Command) {
    var s := PrintCommand(c);
    i + |s| < |t| && t[i] == s[0] && Has(t, i + 1, s[1..]) && EndsLine(t[i + |s|])
  }

  lemma ReadsPlainCommand(t: Text, i: nat, l: Line)
    requires LineOk(l) && l.Do? && Behind(t, i, l.what)
    requires l.what.DoWait? || l.what.DoQuery? || l.what.DoPlay? || l.what.DoJump? || l.what.DoJumpIf?
    ensures var r := Tagged(t, t[i], i + 1); r.Ok? && r.value == Meaning(l)
  {
    hide Spaced, PrintPlace, Skip, LoadU, Content, Called, Position, Shape, TextOk, NameOk, EndsLine, Has;
    hide Area, Digits, ColourOf, NameOf, HexWord, PrintData, PrintPlace, IsSpace;
    match l.what
    case DoQuery(text) => ReadsText(t, i, l.what, text);
    case DoPlay(text) => ReadsText(t, i, l.what, text);
    case DoJump(target) => ReadsText(t, i, l.what, target);
    case DoJumpIf(value, target) => ReadsCondition(t, i + 1, value, target);
    case _ =>
  }

  lemma ReadsText(t: Text, i: nat, c: Command, text: seq<byte>)
    requires Behind(t, i, c) && TextOk(text) && PrintCommand(c)[1..] == text
    ensures Content(t, i + 1) == Ok(text, i + 1 + |text|)
  {
    hide PrintCommand, Content, TextOk;
    assert |PrintCommand(c)| == 1 + |text|;
    ReadsContent(t, i + 1, text);
  }

  lemma ReadsCallCommand(t: Text, i: nat, l: Line)
    requires LineOk(l) && l.Do? && Behind(t, i, l.what) && (l.what.DoCall? || l.what.DoDecode?) && !Bare(l)
    ensures var r := Tagged(t, t[i], i + 1); r.Ok? && r.value == Meaning(l)
  {
    hide Spaced, Skip, LoadU, Content, Called, Position, Shape, TextOk, NameOk, EndsLine, Has, AllHex, HexWord, CString;
    match l.what
    case DoCall(script) => ReadsCall(t, i + 1, script);
    case DoDecode(script, kind, crc, parameter, data) => ReadsDecode(t, i + 1, script, kind, crc, parameter, data);
  }

  lemma ReadsPlacedCommand(t: Text, i: nat, l: Line)
    requires LineOk(l) && l.Do? && Behind(t, i, l.what)
    requires l.what.DoText? || l.what.DoPicture? || l.what.DoShape? || l.what.DoArea?
    ensures var r := Tagged(t, t[i], i + 1); r.Ok? && r.value == Meaning(l)
  {
    hide Spaced, PrintPlace, Skip, LoadU, Content, Called, Position, Shape, TextOk, NameOk, EndsLine, Has;
    hide Area, Digits, ColourOf, NameOf, HexWord, PrintData, IsSpace;
    match l.what
    case DoText(y, x, text) => ReadsPlaced(t, i + 1, y, x, text);
    case DoPicture(y, x, text) => ReadsPlaced(t, i + 1, y, x, text);
    case DoShape(y, x, width, height, text, _) => ReadsShape(t, i + 1, y, x, width, height, text);
    case DoArea(y, x, width, height, area) => ReadsArea(t, i + 1, y, x, width, height, area);
  }

  lemma ReadsCondition(t: Text, i: nat, value: word16, target: seq<byte>)
    requires TextOk(target) && Has(t, i, Spaced(value) + target)
    requires var end := i + |Spaced(value)| + |target|; end < |t| && EndsLine(t[end])
    ensures var next := i + |Spaced(value)|;
      LoadU(t, i) == Unsigned(value, true, next) && Content(t, next) == Ok(target, next + |target|)
  {
    hide Spaced, LoadU, Content;
    var next := i + |Spaced(value)|;
    HasBoth(t, i, Spaced(value), target);
    HasFirst(t, next, target);
    ReadsNumber(t, i, value);
    ReadsContent(t, next, target);
  }

  lemma ReadsCall(t: Text, i: nat, script: seq<byte>)
    requires NameOk(script) && Has(t, i, script) && i + |script| < |t| && EndsLine(t[i + |script|]) && 0 < i
    ensures Called(t, i) == Ok(CallParts(script, 0, 0, 0, []), i + |script|)
    ensures NameOf(CallParts(script, 0, 0, 0, [])) == script
  {
    hide NameOk, ScriptName, Strtoul, LoadU, Skip, NameOf;
    ReadsName(t, i, script);
    NameRunsOn(CallParts(script, 0, 0, 0, []));
  }

  // The name is read as it was printed exactly if it leaves room for a terminator, or the first byte behind is one.
  lemma NameRunsOn(c: CallParts)
    requires NameOk(c.name)
    ensures NameOf(c) == c.name <==> |c.name| < LONGEST_NAME || c.kind % 0x100 == 0
  {
    hide CString;
    if |c.name| < LONGEST_NAME {
      NoZero(c.name);
    } else {
      var kind := Bytes.ToLittleEndian(c.kind, 2);
      assert kind[0] == c.kind % 0x100;
      var rest := kind + Bytes.ToLittleEndian(c.crc, 4) + Bytes.ToLittleEndian(c.parameter, 2) + c.data;
      hide Bytes.ToLittleEndian;
      assert c.name + kind + Bytes.ToLittleEndian(c.crc, 4) + Bytes.ToLittleEndian(c.parameter, 2) + c.data
          == c.name + rest;
      StringUpTo(c.name, rest);
    }
  }

  lemma {:induction false} StringUpTo(s: seq<byte>, rest: seq<byte>)
    requires rest != [] && forall k | 0 <= k < |s| :: s[k] != 0
    ensures CString(s + rest) == s <==> rest[0] == 0
  {
    if s == [] {
      assert s + rest == rest;
    } else {
      StringUpTo(s[1..], rest);
      assert (s + rest)[1..] == s[1..] + rest;
      assert s == [s[0]] + s[1..];
      assert CString(s + rest) == [s[0]] + CString(s[1..] + rest);
      assert CString(s + rest)[1..] == CString(s[1..] + rest);
    }
  }

  lemma ReadsPlaced(t: Text, i: nat, y: word16, x: Across, text: seq<byte>)
    requires TextOk(text) && Has(t, i, PrintPlace(y, x) + text)
    requires var end := i + |PrintPlace(y, x)| + |text|; end < |t| && EndsLine(t[end])
    ensures var next := i + |PrintPlace(y, x)|;
      Position(t, i) == Ok((y, x), next) && Content(t, next) == Ok(text, next + |text|)
  {
    hide PrintPlace, Position, Content;
    var next := i + |PrintPlace(y, x)|;
    HasBoth(t, i, PrintPlace(y, x), text);
    HasFirst(t, next, text);
    ReadsPosition(t, i, y, x);
    ReadsContent(t, next, text);
  }

  // A colour that begins with the letter of one is that letter.
  function ColourOf(text: seq<byte>): seq<byte> {
    if text != [] && text[0] in {66, 71, 87} then [text[0]] else text
  }

  lemma ReadsShape(t: Text, i: nat, y: word16, x: Across, width: word16, height: word16, text: seq<byte>)
    requires TextOk(text) && Has(t, i, PrintPlace(y, x) + (Spaced(width) + (Spaced(height) + text)))
    requires var end := i + |PrintPlace(y, x)| + |Spaced(width)| + |Spaced(height)| + |text|;
      end < |t| && EndsLine(t[end])
    ensures Shape(t, i).Ok?
      && Shape(t, i).value == ShapeParts(y, x, width, height, ColourOf(text))
  {
    hide PrintPlace, Spaced, Position, Content, LoadU, TextOk, Has, Shape, ColourOf;
    var a := i + |PrintPlace(y, x)|;
    var b, c := a + |Spaced(width)|, a + |Spaced(width)| + |Spaced(height)|;
    HasBoth(t, i, PrintPlace(y, x), Spaced(width) + (Spaced(height) + text));
    HasBoth(t, a, Spaced(width), Spaced(height) + text);
    HasBoth(t, b, Spaced(height), text);
    HasFirst(t, a, Spaced(width));
    HasFirst(t, b, Spaced(height));
    TextBegins(t, c, text);
    HasFirst(t, c, text);
    ReadsPosition(t, i, y, x);
    ReadsNumber(t, a, width);
    ReadsNumber(t, b, height);
    ReadsContent(t, c, text);
    ShapeIs(t, i, ShapeParts(y, x, width, height, ColourOf(text)), text, a, b, c, c + |text|);
  }

  lemma ShapeIs(t: Text, i: nat, parts: ShapeParts, text: seq<byte>, a: nat, b: nat, c: nat, d: nat)
    requires i < a <= b <= c <= d < |t| && text != [] && t[c] == text[0] && parts.colour == ColourOf(text)
    requires Position(t, i) == Ok((parts.y, parts.x), a) && LoadU(t, a) == Unsigned(parts.width, true, b)
    requires LoadU(t, b) == Unsigned(parts.height, true, c) && Content(t, c) == Ok(text, d)
    ensures Shape(t, i).Ok? && Shape(t, i).value == parts
  {
    hide Position, LoadU, Content;
  }

  lemma TextBegins(t: Text, i: nat, text: seq<byte>)
    requires TextOk(text) && Has(t, i, text)
    ensures i < |t| && !IsSpace(t[i]) && text != []
  {
    HasFirst(t, i, text);
  }

  lemma ReadsArea(t: Text, i: nat, y: word16, x: Across, width: word16, height: word16, area: word16)
    requires 0 < i && Has(t, i, PrintPlace(y, x) + (Spaced(width) + (Spaced(height) + Digits(area))))
    requires var end := i + |PrintPlace(y, x)| + |Spaced(width)| + |Spaced(height)| + |Digits(area)|;
      end < |t| && EndsLine(t[end])
    ensures Area(t, i).Ok? && Area(t, i).value == AreaParts(y, x, width, height, area)
  {
    hide PrintPlace, Spaced, Digits, Position, LoadU, Has;
    var a := i + |PrintPlace(y, x)|;
    var b, c := a + |Spaced(width)|, a + |Spaced(width)| + |Spaced(height)|;
    HasBoth(t, i, PrintPlace(y, x), Spaced(width) + (Spaced(height) + Digits(area)));
    HasBoth(t, a, Spaced(width), Spaced(height) + Digits(area));
    HasBoth(t, b, Spaced(height), Digits(area));
    HasFirst(t, a, Spaced(width));
    HasFirst(t, b, Spaced(height));
    HasFirst(t, c, Digits(area));
    ReadsPosition(t, i, y, x);
    ReadsNumber(t, a, width);
    ReadsNumber(t, b, height);
    LineNumber(t, c, area);
  }

  // Name, method, CRC, parameter and data of encrypted content are read back.
  lemma ReadsDecode(t: Text, i: nat, script: seq<byte>, kind: word16, crc: seq<byte>, parameter: word16,
                    data: seq<byte>)
    requires 0 < i && NameOk(script) && kind != 0 && AllHex(crc) && TextOk(data) && |data| <= LONGEST_DATA
    requires Has(t, i, script + [SPACE] + (Spaced(kind) + (crc + [SPACE] + (Spaced(parameter) + data))))
    requires var end := i + |script| + 1 + |Spaced(kind)| + |crc| + 1 + |Spaced(parameter)| + |data|;
      end < |t| && EndsLine(t[end])
    ensures Called(t, i).Ok? && Called(t, i).value == CallParts(script, kind, HexWord(crc), parameter, data)
  {
    hide *;
    var n := i + |script|;
    var a := n + 1;
    var b := a + |Spaced(kind)|;
    var c := b + |crc|;
    var d := c + 1 + |Spaced(parameter)|;
    DecodeParts(t, i, script, Spaced(kind), crc, Spaced(parameter), data);
    HasFirst(t, a, Spaced(kind));
    HasFirst(t, c + 1, Spaced(parameter));
    HexOk(crc);
    HexBegins(t, b, crc);
    TextBegins(t, d, data);
    HasSlice(t, d, data);
    NameThere(t, i, script);
    SpacedNumber(t, n, kind);
    ReadsHex(t, b, crc);
    SpacedNumber(t, c, parameter);
    DataEnds(t, d, data);
    CalledIs(t, i, CallParts(script, kind, HexWord(crc), parameter, data), n, b, c, d, d + |data|);
  }

  // Where they lie.
  lemma DecodeParts(t: Text, i: nat, script: seq<byte>, kind: seq<byte>, crc: seq<byte>, parameter: seq<byte>,
                    data: seq<byte>)
    requires Has(t, i, script + [SPACE] + (kind + (crc + [SPACE] + (parameter + data))))
    ensures var n := i + |script|; var b := n + 1 + |kind|; var c := b + |crc|; var d := c + 1 + |parameter|;
      && Has(t, i, script) && Has(t, n + 1, kind) && Has(t, b, crc) && Has(t, c + 1, parameter) && Has(t, d, data)
      && d + |data| <= |t| && t[n] == SPACE && t[c] == SPACE && !EndsLine(t[n])
  {
    hide Has;
    var n := i + |script|;
    var b := n + 1 + |kind|;
    var c := b + |crc|;
    HasBoth(t, i, script + [SPACE], kind + (crc + [SPACE] + (parameter + data)));
    HasBoth(t, i, script, [SPACE]);
    HasBoth(t, n + 1, kind, crc + [SPACE] + (parameter + data));
    HasBoth(t, b, crc + [SPACE], parameter + data);
    HasBoth(t, b, crc, [SPACE]);
    HasBoth(t, c + 1, parameter, data);
    HasInside(t, c + 1 + |parameter|, data);
    HasFirst(t, n, [SPACE]);
    HasFirst(t, c, [SPACE]);
  }

  lemma ReadsBareCall(t: Text, i: nat, script: seq<byte>, kind: word16, crc: seq<byte>, parameter: word16)
    requires 0 < i && NameOk(script) && kind != 0 && AllHex(crc)
    requires Has(t, i, script + [SPACE] + (Spaced(kind) + (crc + [SPACE] + Digits(parameter))))
    requires var end := i + |script| + 1 + |Spaced(kind)| + |crc| + 1 + |Digits(parameter)|;
      end < |t| && EndsLine(t[end])
    ensures var end := i + |script| + 1 + |Spaced(kind)| + |crc| + 1 + |Digits(parameter)|;
      Called(t, i).Ok? <==> DataFits(t, end)
    ensures Called(t, i).Ok? ==> Called(t, i).value.name == script && Called(t, i).value.kind == kind
  {
    hide ScriptName, Spaced, Digits, LoadU, Has, NameOk, AllHex, Strtoul, HexWord, SpaceEnd, LineEnd;
    HexOk(crc);
    var n := i + |script|;
    var a := n + 1;
    var b := a + |Spaced(kind)|;
    var c := b + |crc|;
    HasBoth(t, i, script + [SPACE], Spaced(kind) + (crc + [SPACE] + Digits(parameter)));
    HasBoth(t, i, script, [SPACE]);
    HasBoth(t, a, Spaced(kind), crc + [SPACE] + Digits(parameter));
    HasBoth(t, b, crc + [SPACE], Digits(parameter));
    HasBoth(t, b, crc, [SPACE]);
    HasFirst(t, n, [SPACE]);
    HasFirst(t, a, Spaced(kind));
    HasFirst(t, c, [SPACE]);
    HexBegins(t, b, crc);
    NameThere(t, i, script);
    SpacedNumber(t, n, kind);
    ReadsHex(t, b, crc);
    LastNumber(t, c, parameter);
  }

  // A number at the end of a line: what is read over behind it goes on to the next line.
  lemma LineNumber(t: Text, i: nat, n: word16)
    requires Has(t, i, Digits(n))
    requires var end := i + |Digits(n)|; end < |t| && EndsLine(t[end])
    ensures LoadU(t, i) == Unsigned(n, true, SpaceEnd(t, i + |Digits(n)|))
  {
    hide Digits, Number, Skip;
    var d, end := Digits(n), i + |Digits(n)|;
    assert forall k | i <= k < end :: t[k] == t[i..end][k - i] == d[k - i];
    assert t[i..end] == d;
    SkipTo(t, i, IsSpace, i);
    SkipTo(t, i, IsDigit, end);
    NumberOfDigits(n);
  }

  lemma LastNumber(t: Text, i: nat, n: word16)
    requires i < |t| && t[i] == SPACE && Has(t, i + 1, Digits(n))
    requires var end := i + 1 + |Digits(n)|; end < |t| && EndsLine(t[end])
    ensures var end := i + 1 + |Digits(n)|; LoadU(t, i) == Unsigned(n, true, SpaceEnd(t, end))
  {
    LineNumber(t, i + 1, n);
    hide Digits, Number;
    assert SpaceEnd(t, i) == SpaceEnd(t, i + 1);
  }

  lemma NameThere(t: Text, i: nat, script: seq<byte>)
    requires NameOk(script) && Has(t, i, script) && i + |script| < |t| && t[i + |script|] == SPACE
    ensures ScriptName(t, i) == Ok(script, i + |script|)
  {
    hide NameOk, ScriptName;
    ReadsName(t, i, script);
  }

  // The parts of a call, from place to place.
  lemma CalledIs(t: Text, i: nat, parts: CallParts, a: nat, b: nat, c: nat, d: nat, e: nat)
    requires 0 < i < a <= b <= c <= d <= e < |t| && e - d <= LONGEST_DATA
    requires ScriptName(t, i) == Ok(parts.name, a) && !EndsLine(t[a])
    requires LoadU(t, a) == Unsigned(parts.kind, true, b) && Strtoul(t, b) == Hex(parts.crc, c)
    requires LoadU(t, c) == Unsigned(parts.parameter, true, d) && LineEnd(t, d) == e && t[d..e] == parts.data
    ensures Called(t, i) == Ok(parts, e)
  {
    hide ScriptName, LoadU, Strtoul, LineEnd, EndsLine;
  }

  lemma HasSlice(t: Text, i: nat, s: seq<byte>)
    requires Has(t, i, s)
    ensures i + |s| <= |t| && t[i..i + |s|] == s
  {
  }

  lemma HexOk(crc: seq<byte>)
    requires AllHex(crc)
    ensures HexDigits(crc)
  {
  }

  lemma HexBegins(t: Text, i: nat, crc: seq<byte>)
    requires AllHex(crc) && Has(t, i, crc)
    ensures i < |t| && !IsSpace(t[i]) && crc != []
  {
    HasFirst(t, i, crc);
  }

  // A number with a space before it.
  lemma SpacedNumber(t: Text, i: nat, n: word16)
    requires i < |t| && t[i] == SPACE
    requires var next := i + 1 + |Spaced(n)|; Has(t, i + 1, Spaced(n)) && next < |t| && !IsSpace(t[next])
    ensures LoadU(t, i) == Unsigned(n, true, i + 1 + |Spaced(n)|)
  {
    HasFirst(t, i + 1, Spaced(n));
    ReadsNumber(t, i + 1, n);
    hide Spaced, Number;
    assert SpaceEnd(t, i) == SpaceEnd(t, i + 1);
  }

  lemma ReadsHex(t: Text, i: nat, crc: seq<byte>)
    requires AllHex(crc) && Has(t, i, crc) && i + |crc| < |t| && t[i + |crc|] == SPACE
    ensures HexDigits(crc) && Strtoul(t, i) == Hex(HexWord(crc), i + |crc|)
  {
    hide Skip;
    hide HexNumber;
    assert t[i..i + |crc|] == crc;
    assert forall k | i <= k < i + |crc| :: t[k] == t[i..i + |crc|][k - i] == crc[k - i];
    SkipTo(t, i, IsSpace, i);
    SkipTo(t, i, IsHex, i + |crc|);
    NoPrefix(t, i, crc);
  }

  // A number in hexadecimal digits, in upper or lower case, the first of them the highest.
  function HexPrinted(n: nat, length: nat, upper: bool): (s: seq<byte>)
    ensures |s| == length
    decreases length
  {
    if length == 0 then []
    else
      var d := n % 16;
      HexPrinted(n / 16, length - 1, upper) + [if d < 10 then 48 + d else if upper then 55 + d else 87 + d]
  }

  // A printed number of 32 bits is read back in either case, whatever its leading zeros.
  lemma ReadsPrintedHex(t: Text, i: nat, n: word32, length: nat, upper: bool)
    requires n < Pow2(4 * length) && 0 < length
    requires var s := HexPrinted(n, length, upper); Has(t, i, s) && i + length < |t| && t[i + length] == SPACE
    ensures Strtoul(t, i) == Hex(n, i + length)
  {
    hide Strtoul, Has, HexPrinted, HexNumber, Pow2;
    HexValue(n, length, upper);
    ReadsHex(t, i, HexPrinted(n, length, upper));
  }

  // The same with a sign before it, which turns the number round in 32 bits if it is a minus, and with a prefix.
  lemma ReadsMarkedHex(t: Text, i: nat, sign: seq<byte>, prefix: seq<byte>, n: word32, length: nat, upper: bool)
    requires sign in [[], [43], [45]] && prefix in [[], [48, 88], [48, 120]]
    requires n < Pow2(4 * length) && 0 < length
    requires var s := sign + prefix + HexPrinted(n, length, upper);
      Has(t, i, s) && i + |s| < |t| && t[i + |s|] == SPACE
    ensures Strtoul(t, i)
         == Hex(if sign == [45] && 0 < n then 0x1_0000_0000 - n else n, i + |sign| + |prefix| + length)
  {
    hide HexPrinted, HexNumber, Pow2, Has, Skip, Strtoul;
    var digits := HexPrinted(n, length, upper);
    HexValue(n, length, upper);
    var b, c := i + |sign|, i + |sign| + |prefix|;
    var d := c + length;
    HasBoth(t, i, sign + prefix, digits);
    HasBoth(t, i, sign, prefix);
    HasSlice(t, i, sign);
    HasSlice(t, b, prefix);
    HasSlice(t, c, digits);
    assert forall k | c <= k < d :: t[k] == t[c..d][k - c] == digits[k - c];
    MarksBegin(t, i, b, c, sign, prefix);
    StrtoulFrom(t, i, b, c, d, digits);
  }

  lemma StrtoulFrom(t: Text, i: nat, b: nat, c: nat, d: nat, digits: seq<byte>)
    requires i <= b <= c < d < |t| && !IsSpace(t[i]) && !IsHex(t[d])
    requires t[c..d] == digits && forall k | c <= k < d :: IsHex(t[k])
    requires HexDigits(digits) && HexNumber(digits) < 0x1_0000_0000
    requires b == if At(t, i) in {43, 45} then i + 1 else i
    requires c == if At(t, b) == 48 && At(t, b + 1) in {88, 120} && IsHex(At(t, b + 2)) then b + 2 else b
    ensures Strtoul(t, i)
         == Hex(if t[i] == 45 && 0 < HexNumber(digits) then 0x1_0000_0000 - HexNumber(digits) else HexNumber(digits), d)
  {
    hide HexNumber, Skip, IsHex, IsSpace;
    SkipTo(t, i, IsSpace, i);
    SkipTo(t, c, IsHex, d);
  }

  lemma MarksBegin(t: Text, i: nat, b: nat, c: nat, sign: seq<byte>, prefix: seq<byte>)
    requires sign in [[], [43], [45]] && prefix in [[], [48, 88], [48, 120]]
    requires b == i + |sign| && c == b + |prefix| && c + 1 < |t|
    requires t[i..b] == sign && t[b..c] == prefix && IsHex(t[c]) && (IsHex(t[c + 1]) || t[c + 1] == SPACE)
    ensures !IsSpace(t[i])
    ensures b == if At(t, i) in {43, 45} then i + 1 else i
    ensures (t[i] == 45) == (sign == [45])
    ensures c == if At(t, b) == 48 && At(t, b + 1) in {88, 120} && IsHex(At(t, b + 2)) then b + 2 else b
  {
    if sign != [] {
      assert t[i] == t[i..b][0];
    }
    if prefix != [] {
      assert t[b] == t[b..c][0] && t[b + 1] == t[b..c][1];
    }
  }

  lemma {:induction false} HexValue(n: nat, length: nat, upper: bool)
    requires n < Pow2(4 * length)
    ensures HexDigits(HexPrinted(n, length, upper)) && HexNumber(HexPrinted(n, length, upper)) == n
    decreases length
  {
    if length != 0 {
      var s := HexPrinted(n, length, upper);
      assert Pow2(4) == 16;
      Pow2Add(4, 4 * (length - 1));
      hide Pow2;
      HexValue(n / 16, length - 1, upper);
      assert s[..length - 1] == HexPrinted(n / 16, length - 1, upper);
    }
  }

  // Hexadecimal digits begin with no sign, and have no prefix in them.
  lemma NoPrefix(t: Text, i: nat, crc: seq<byte>)
    requires i + |crc| < |t| && t[i + |crc|] == SPACE && 0 < |crc| && forall k | i <= k < i + |crc| :: IsHex(t[k])
    ensures t[i] !in {43, 45} && At(t, i + 1) !in {88, 120}
  {
    if |crc| == 1 {
      assert t[i + 1] == SPACE;
    }
  }

  lemma DataEnds(t: Text, i: nat, data: seq<byte>)
    requires TextOk(data) && Has(t, i, data) && i + |data| < |t| && EndsLine(t[i + |data|])
    ensures LineEnd(t, i) == i + |data|
  {
    assert forall k | i <= k < i + |data| :: t[k] == t[i..i + |data|][k - i] == data[k - i];
    LineEndIs(t, i, i + |data|);
  }

  // The rest of a line without a line end in it, and the line end of two bytes.
  lemma EndsThere(t: Text, offset: nat, entry: Runner.Entry, delayed: bool, cur: nat, end: nat)
    requires offset < cur <= end && end + 2 <= |t| && t[end] == CR && t[end + 1] == LF
    requires forall k | cur <= k < end :: !EndsLine(t[k])
    requires end + 2 < |t| ==> !EndsLine(t[end + 2])
    ensures Ended(t, offset, entry, delayed, cur) == Runner.Loaded(entry, delayed, end + 2 - offset)
  {
    hide Skip;
    LineEndIs(t, cur, end);
    SkipTo(t, end, EndsLine, end + 2);
  }

  lemma OneLine(l: Line)
    requires LineOk(l)
    ensures var s := Print(l); |s| > 2 && s[|s| - 2..] == [CR, LF] && forall k | 0 <= k < |s| - 2 :: !EndsLine(s[k])
    ensures !EndsLine(Print(l)[0]) && !IsSpace(Print(l)[0])
  {
    match l
    case Mark(name) =>
    case Do(delay, what) => OneCommand(l, what);
  }

  lemma OneCommand(l: Line, c: Command)
    requires LineOk(l) && l.Do? && l.what == c
    ensures forall k | 0 <= k < |PrintCommand(c)| :: !EndsLine(PrintCommand(c)[k])
  {
    hide Digits, Spaced, PrintPlace, PrintAcross;
  }

  lemma ReadsMark(t: Text, offset: nat, name: seq<byte>)
    requires TextOk(name) && offset + |name| + 3 <= |t|
    requires t[offset] == 58 && t[offset + 1..offset + 1 + |name|] == name
    requires t[offset + 1 + |name|] == CR && t[offset + 1 + |name| + 1] == LF
    requires offset + |name| + 3 < |t| ==> !EndsLine(t[offset + |name| + 3])
    ensures LoadEntry(t, offset) == Runner.Loaded(Runner.Label(name), false, |name| + 3)
  {
    hide Skip, Content, Ended;
    ReadsContent(t, offset + 1, name);
    EndsThere(t, offset, Runner.Label(name), false, offset + 1 + |name|, offset + 1 + |name|);
  }

  // Where a printed line with a delay lies in a text.
  ghost predicate Lies(t: Text, offset: nat, l: Line, next: nat, end: nat) {
    && l.Do? && next == offset + |Spaced(l.delay)| && end == next + |PrintCommand(l.what)| && end + 2 <= |t|
    && t[offset..next] == Spaced(l.delay) && t[next..end] == PrintCommand(l.what)
    && t[end] == CR && t[end + 1] == LF && (end + 2 < |t| ==> !EndsLine(t[end + 2]))
  }

  lemma ReadsDelay(t: Text, offset: nat, l: Line, next: nat, end: nat)
    requires Lies(t, offset, l, next, end)
    ensures LoadU(t, offset) == Unsigned(l.delay, true, next)
  {
    FirstBytes(t, offset, l, next, end);
    hide LoadU, Digits, PrintCommand;
    ReadsNumber(t, offset, l.delay);
  }

  lemma ReadsTagged(t: Text, offset: nat, l: Line, next: nat, end: nat)
    requires LineOk(l) && Lies(t, offset, l, next, end)
    ensures offset < next < end < |t|
    ensures var r := Tagged(t, t[next], next + 1);
      (r.Ok? <==> !Bare(l) || DataFits(t, end)) && (r.Ok? ==> r.value == Meaning(l))
  {
    FirstBytes(t, offset, l, next, end);
    hide Tagged, Digits, PrintCommand, LineOk, Meaning, DataFits;
    if Bare(l) {
      ReadsBareCommand(t, next, l);
    } else {
      ReadsCommand(t, next, l, l.what);
    }
  }

  lemma ReadsEnd(t: Text, offset: nat, l: Line, next: nat, end: nat)
    requires LineOk(l) && Lies(t, offset, l, next, end)
    ensures offset < next < end < |t|
    ensures Ended(t, offset, Meaning(l), l.delay != 0, next + 1)
            == Runner.Loaded(Meaning(l), l.delay != 0, end + 2 - offset)
  {
    FirstBytes(t, offset, l, next, end);
    hide Ended, Digits, PrintCommand, LineOk, Meaning;
    NoLineEnds(t, next, l, end);
    EndsThere(t, offset, Meaning(l), l.delay != 0, next + 1, end);
  }

  lemma ReadsDo(t: Text, offset: nat, l: Line, next: nat, end: nat)
    requires LineOk(l) && Lies(t, offset, l, next, end)
    ensures LoadEntry(t, offset)
            == if Bare(l) && !DataFits(t, end) then Runner.LoadError
               else Runner.Loaded(Meaning(l), l.delay != 0, end + 2 - offset)
  {
    hide *;
    FirstBytes(t, offset, l, next, end);
    ReadsDelay(t, offset, l, next, end);
    ReadsTagged(t, offset, l, next, end);
    ReadsEnd(t, offset, l, next, end);
    LoadsTagged(t, offset, Unsigned(l.delay, true, next));
  }

  lemma FirstBytes(t: Text, offset: nat, l: Line, next: nat, end: nat)
    requires Lies(t, offset, l, next, end)
    ensures l.Do? && offset < next < end < |t|
    ensures t[offset] != CR && t[offset] != 58 && !IsSpace(t[next]) && EndsLine(t[end])
  {
    var d, c := Digits(l.delay), PrintCommand(l.what);
    hide Digits, PrintCommand;
    assert IsDigit(d[0]);
    assert t[offset] == t[offset..next][0] == d[0];
    assert t[next] == t[next..end][0] == c[0];
  }

  lemma NoLineEnds(t: Text, at: nat, l: Line, end: nat)
    requires LineOk(l) && l.Do? && at <= end <= |t| && t[at..end] == PrintCommand(l.what)
    ensures forall k | at <= k < end :: !EndsLine(t[k])
  {
    OneCommand(l, l.what);
    hide PrintCommand, LineOk;
    assert forall k | at <= k < end :: t[k] == t[at..end][k - at];
  }

  // The branch of an entry with a delay and a tag.
  lemma LoadsTagged(t: Text, offset: nat, u: Unsigned)
    requires offset < |t| && t[offset] != CR && t[offset] != 58
    requires LoadU(t, offset) == u && u.ok && u.next < |t|
    ensures var r := Tagged(t, t[u.next], u.next + 1);
      LoadEntry(t, offset)
      == if r.Ok? then Ended(t, offset, r.value, u.value != 0, u.next + 1) else Runner.LoadError
  {
    hide LoadU, Tagged, Ended, Content;
  }

  // A printed line is loaded as what it says, to its very end; a call without data only if the next line is short.
  lemma ReadsLine(before: Text, l: Line, after: Text)
    requires LineOk(l) && (after != [] ==> !EndsLine(after[0]))
    ensures LoadEntry(before + Print(l) + after, |before|)
            == if Bare(l) && !DataFits(before + Print(l) + after, |before| + |Print(l)| - 2) then Runner.LoadError
               else Runner.Loaded(Meaning(l), l.Do? && l.delay != 0, |Print(l)|)
  {
    hide DataFits, Digits, LoadEntry, PrintCommand, LineOk, Lies, TextOk;
    match l
    case Mark(name) =>
      MarkOk(l);
      ReadsPrintedMark(before, name, after);
    case Do(delay, what) =>
      PrintedLies(before, l, after);
      ReadsDo(before + Print(l) + after, |before|, l, |before| + |Spaced(delay)|, |before| + |Print(l)| - 2);
  }

  lemma ReadsPrintedMark(before: Text, name: seq<byte>, after: Text)
    requires TextOk(name) && (after != [] ==> !EndsLine(after[0]))
    ensures LoadEntry(before + ([58] + name + [CR, LF]) + after, |before|)
            == Runner.Loaded(Runner.Label(name), false, |name| + 3)
  {
    hide TextOk, LoadEntry;
    var t := before + ([58] + name + [CR, LF]) + after;
    Parts(before, [58], name, CR, LF, after);
    assert t[|before|] == t[|before|..|before| + 1][0] == 58;
    ReadsMark(t, |before|, name);
  }

  lemma PrintedLies(before: Text, l: Line, after: Text)
    requires l.Do? && (after != [] ==> !EndsLine(after[0]))
    ensures |Print(l)| > 2
    ensures Lies(before + Print(l) + after, |before|, l, |before| + |Spaced(l.delay)|, |before| + |Print(l)| - 2)
  {
    Parts(before, Spaced(l.delay), PrintCommand(l.what), CR, LF, after);
    hide Digits, PrintCommand;
  }

  lemma Parts(a: seq<byte>, d: seq<byte>, c: seq<byte>, x: byte, y: byte, f: seq<byte>)
    ensures var t, i, j := a + (d + c + [x, y]) + f, |a| + |d|, |a| + |d| + |c|;
      && t[|a|..i] == d && t[i..j] == c && t[j] == x && t[j + 1] == y
      && |t| == j + 2 + |f| && (f != [] ==> t[j + 2] == f[0])
  {
    var t := a + (d + c + [x, y]) + f;
    assert t == a + d + (c + [x, y] + f);
    assert t == a + d + c + ([x, y] + f);
  }

  lemma MarkOk(l: Line)
    requires LineOk(l) && l.Mark?
    ensures TextOk(l.name)
  {
  }

  // ----- Printed scripts -----

  function PrintAll(lines: seq<Line>): Text {
    if lines == [] then [] else Print(lines[0]) + PrintAll(lines[1..])
  }

  // Where a line of a printed script begins.
  function Start(lines: seq<Line>, k: nat): nat
    requires k <= |lines|
  {
    |PrintAll(lines[..k])|
  }

  lemma {:induction false} PrintSplit(lines: seq<Line>, k: nat)
    requires k <= |lines|
    ensures PrintAll(lines) == PrintAll(lines[..k]) + PrintAll(lines[k..])
    decreases k
  {
    hide Print;
    if k == 0 {
      assert lines[..0] == [] && lines[0..] == lines;
    } else {
      PrintSplit(lines[1..], k - 1);
      assert lines[..k][1..] == lines[1..][..k - 1] && lines[1..][k - 1..] == lines[k..];
    }
  }

  // A line is loaded, unless it is a call without data and the next line is too long for data, or there is none.
  predicate Loads(lines: seq<Line>, k: nat)
    requires k < |lines|
  {
    Bare(lines[k]) ==> k + 1 < |lines| && |Print(lines[k + 1])| - 2 <= LONGEST_DATA
  }

  // Every line of a printed script is loaded at its start and ends at the start of the next one.
  lemma LoadsLine(lines: seq<Line>, k: nat)
    requires k < |lines| && forall j | 0 <= j < |lines| :: LineOk(lines[j])
    ensures Start(lines, k) < |PrintAll(lines)| && Start(lines, k) < Start(lines, k + 1)
    ensures var r := LoadEntry(PrintAll(lines), Start(lines, k));
      && (r.Loaded? <==> Loads(lines, k))
      && (r.Loaded? ==>
            && r.entry == Meaning(lines[k]) && r.delayed == (lines[k].Do? && lines[k].delay != 0)
            && Start(lines, k) + r.length == Start(lines, k + 1))
  {
    hide LoadEntry, LineOk, Print, PrintAll, Meaning, DataFits;
    var l, after := lines[k], PrintAll(lines[k + 1..]);
    PrintSplit(lines, k);
    PrintStep(lines[k..]);
    assert lines[k..][1..] == lines[k + 1..];
    OneLine(l);
    var before := PrintAll(lines[..k]);
    assert PrintAll(lines) == before + Print(l) + after;
    NextFits(before, lines, k);
    ReadsLine(before, l, after);
    PrintSplit(lines[..k + 1], k);
    assert lines[..k + 1][..k] == lines[..k] && lines[..k + 1][k..] == [l];
    PrintStep([l]);
    PrintNone();
  }

  // The data of a call without data are the next line.
  lemma NextFits(before: Text, lines: seq<Line>, k: nat)
    requires k < |lines| && forall j | 0 <= j < |lines| :: LineOk(lines[j])
    ensures var after := PrintAll(lines[k + 1..]); after != [] ==> !EndsLine(after[0])
    ensures |Print(lines[k])| > 2
    ensures var t := before + Print(lines[k]) + PrintAll(lines[k + 1..]);
      DataFits(t, |before| + |Print(lines[k])| - 2)
      <==> k + 1 < |lines| && |Print(lines[k + 1])| - 2 <= LONGEST_DATA
  {
    hide LineOk, Print, PrintAll, DataFits;
    OneLine(lines[k]);
    var begin := before + Print(lines[k]);
    if k + 1 < |lines| {
      var l := lines[k + 1];
      PrintStep(lines[k + 1..]);
      OneLine(l);
      FitsNext(begin, Print(l), PrintAll(lines[k + 1..][1..]));
      assert begin + Print(l) + PrintAll(lines[k + 1..][1..]) == begin + PrintAll(lines[k + 1..]);
    } else {
      assert lines[k + 1..] == [];
      PrintNone();
      assert begin + [] == begin;
      FitsNothing(begin);
    }
  }

  // Behind a line end comes a line of its own.
  lemma FitsNext(begin: Text, line: Text, rest: Text)
    requires |begin| > 2 && begin[|begin| - 2..] == [CR, LF] && |line| > 2 && line[|line| - 2..] == [CR, LF]
    requires !IsSpace(line[0]) && forall k | 0 <= k < |line| - 2 :: !EndsLine(line[k])
    ensures DataFits(begin + line + rest, |begin| - 2) <==> |line| - 2 <= LONGEST_DATA
  {
    hide Skip;
    var t, c := begin + line + rest, |begin|;
    var d := c + |line| - 2;
    assert t[c - 2] == begin[c - 2] == begin[c - 2..][0] && t[c - 1] == begin[c - 1] == begin[c - 2..][1];
    assert t[c] == line[0] && t[d] == line[|line| - 2] == line[|line| - 2..][0];
    assert forall k | c <= k < d :: t[k] == line[k - c];
    SkipTo(t, c - 2, IsSpace, c);
    LineEndIs(t, c, d);
  }

  lemma FitsNothing(begin: Text)
    requires |begin| > 2 && begin[|begin| - 2..] == [CR, LF]
    ensures !DataFits(begin, |begin| - 2)
  {
    hide Skip;
    var c := |begin|;
    assert begin[c - 2] == begin[c - 2..][0] && begin[c - 1] == begin[c - 2..][1];
    SkipTo(begin, c - 2, IsSpace, c);
  }

  lemma EndIsStart(lines: seq<Line>)
    ensures Start(lines, |lines|) == |PrintAll(lines)|
  {
    assert lines[..|lines|] == lines;
  }

  lemma PrintStep(lines: seq<Line>)
    requires lines != []
    ensures PrintAll(lines) == Print(lines[0]) + PrintAll(lines[1..])
  {
  }

  lemma PrintNone()
    ensures PrintAll([]) == []
  {
  }

  // The places a script is ever executed at are the starts of its lines, and its end.
  lemma {:induction false} BoundaryIsStart(lines: seq<Line>, offset: nat)
    requires forall j | 0 <= j < |lines| :: LineOk(lines[j])
    requires Runner.Boundary(ScriptOf(PrintAll(lines)), offset)
    ensures exists k | 0 <= k <= |lines| :: offset == Start(lines, k)
  {
    var s := ScriptOf(PrintAll(lines));
    if offset == 0 {
      assert lines[..0] == [];
      assert Start(lines, 0) == 0;
    } else {
      var p: nat :| p < offset && p < s.size && s.load(p).Loaded? && p + s.load(p).length == offset
                    && Runner.Boundary(s, p);
      hide Print, PrintAll, LoadEntry, LineOk, Runner.Boundary;
      BoundaryIsStart(lines, p);
      EndIsStart(lines);
      var k :| 0 <= k <= |lines| && p == Start(lines, k);
      LoadsLine(lines, k);
    }
  }

  // The start of a line is such a place exactly if all lines before it are loaded.
  lemma {:induction false} StartIsBoundary(lines: seq<Line>, k: nat)
    requires k <= |lines| && forall j | 0 <= j < |lines| :: LineOk(lines[j])
    ensures Runner.Boundary(ScriptOf(PrintAll(lines)), Start(lines, k)) <==> forall j | 0 <= j < k :: Loads(lines, j)
  {
    hide Print, LoadEntry, LineOk, Meaning, Loads;
    if k == 0 {
      assert lines[..0] == [];
    } else {
      StartIsBoundary(lines, k - 1);
      LoadsLine(lines, k - 1);
      hide PrintAll;
      hide Runner.Boundary;
      if forall j | 0 <= j < k :: Loads(lines, j) {
        Runner.NextBoundary(ScriptOf(PrintAll(lines)), Start(lines, k - 1));
      }
      if Runner.Boundary(ScriptOf(PrintAll(lines)), Start(lines, k)) {
        LineBefore(lines, k);
      }
    }
  }

  lemma EntryBefore(t: Text, offset: nat) returns (p: nat)
    requires Runner.Boundary(ScriptOf(t), offset) && 0 < offset
    ensures p < offset && p < |t| && Runner.Boundary(ScriptOf(t), p)
    ensures LoadEntry(t, p).Loaded? && p + LoadEntry(t, p).length == offset
  {
    hide LoadEntry;
    var s := ScriptOf(t);
    p :| p < offset && p < s.size && s.load(p).Loaded? && p + s.load(p).length == offset && Runner.Boundary(s, p);
  }

  // A line is only come to from the one before it.
  lemma LineBefore(lines: seq<Line>, k: nat)
    requires 0 < k <= |lines| && forall j | 0 <= j < |lines| :: LineOk(lines[j])
    requires Runner.Boundary(ScriptOf(PrintAll(lines)), Start(lines, k))
    ensures Runner.Boundary(ScriptOf(PrintAll(lines)), Start(lines, k - 1)) && Loads(lines, k - 1)
  {
    hide *;
    var t := PrintAll(lines);
    LoadsLine(lines, k - 1);
    var p := EntryBefore(t, Start(lines, k));
    BoundaryIsStart(lines, p);
    EndIsStart(lines);
    var m :| 0 <= m <= |lines| && p == Start(lines, m);
    LoadsLine(lines, m);
    StartsGrow(lines, m + 1, k);
    StartsGrow(lines, k, m + 1);
  }

  lemma {:induction false} StartsGrow(lines: seq<Line>, j: nat, k: nat)
    requires k <= |lines| && forall i | 0 <= i < |lines| :: LineOk(lines[i])
    ensures j < k ==> Start(lines, j) < Start(lines, k)
    decreases k
  {
    hide Print, PrintAll, LoadEntry, LineOk, Loads, Start;
    if j < k {
      LoadsLine(lines, k - 1);
      StartsGrow(lines, j, k - 1);
    }
  }

  // A library of printed scripts.
  ghost predicate Printed(lib: Runner.Library, sources: map<Runner.Name, seq<Line>>) {
    && lib.Keys == sources.Keys
    && forall name | name in lib :: lib[name] == ScriptOf(PrintAll(sources[name]))
                                    && forall j | 0 <= j < |sources[name]| :: LineOk(sources[name][j])
  }

  // However a run goes, what it executes are lines of the scripts, each at its start.
  lemma ExecutesLines(lib: Runner.Library, sources: map<Runner.Name, seq<Line>>, name: Runner.Name, acc: word16,
                      inputs: seq<Runner.Input>, n: nat)
    requires Printed(lib, sources) && name in lib
    ensures Runner.MachineOk(lib, Runner.Start(name, acc))
    ensures var trace := Runner.Run(lib, Runner.Start(name, acc), inputs).trace;
      n < |trace| ==> trace[n].script in sources && exists k | 0 <= k < |sources[trace[n].script]| ::
        trace[n].offset == Start(sources[trace[n].script], k)
  {
    Runner.EveryRunOnBoundaries(lib, name, acc, inputs);
    hide *;
    OnStarts(lib, sources, Runner.Run(lib, Runner.Start(name, acc), inputs).trace, n);
  }

  lemma OnStarts(lib: Runner.Library, sources: map<Runner.Name, seq<Line>>, trace: seq<Runner.Executed>, n: nat)
    requires Printed(lib, sources) && Runner.OnBoundaries(lib, trace)
    ensures n < |trace| ==> trace[n].script in sources && exists k | 0 <= k < |sources[trace[n].script]| ::
      trace[n].offset == Start(sources[trace[n].script], k)
  {
    hide Runner.Boundary, LoadEntry, PrintAll, LineOk, Start;
    if n < |trace| {
      var e := trace[n];
      assert e in trace;
      assert e.script in lib.Keys;
      var lines := sources[e.script];
      BoundaryIsStart(lines, e.offset);
      EndIsStart(lines);
    }
  }
}
