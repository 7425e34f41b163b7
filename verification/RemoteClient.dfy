/** The player's pages for remote unlocking, which fill the request and the response in
  place (player/src/enc/provider/remote/remote.c, rcode.c and ccode.c).
*/
module RemoteClient {
  import opened Bits
  import opened Bytes
  import opened Des
  import opened Base24
  import opened Remote
  import ProductKey
  import opened Wrappers

  datatype Entered = Accepted | BadFormat | WrongKey | WrongContent

  datatype Confirmed = Unmasked | Malformed | InvalidGroup(index: nat)

  function AccessOf(text: seq<char>): Access
    requires WellFormed(text)
  {
    WellFormedValue(text);
    ReadAccess(Value(Plain(text)[..13]).value, Value(Plain(text)[13..]).value)
  }

  // What entering an access code comes to.
  function EnteredAccess(text: seq<char>, crc: word32): Entered {
    if !WellFormed(text) then BadFormat
    else
      match AccessOf(text)
      case InvalidKey => WrongKey
      case Granted(cid, _) => if cid == crc then Accepted else WrongContent
  }

  lemma WellFormedValue(text: seq<char>)
    requires WellFormed(text)
    ensures |Plain(text)| == 25 && Value(Plain(text)[..13]).Some? && Value(Plain(text)[13..]).Some?
  {
    hide WellFormed, Plain, Value, Position;
    WellFormedLetters(text);
    LettersHaveValue(Plain(text)[..13]);
    LettersHaveValue(Plain(text)[13..]);
  }

  // Of any text in the form of an access code, player and tool read the same exactly if its numbers are in range;
  // the numbers of every printed access code are.
  lemma DecodersAgree(text: seq<char>)
    requires WellFormed(text)
    ensures |Plain(text)| == 25 && Value(Plain(text)[..13]).Some? && Value(Plain(text)[13..]).Some?
    ensures var left, right := Value(Plain(text)[..13]).value, Value(Plain(text)[13..]).value;
      SameAccess(AccessOf(text), ToolAccess(left, right))
      <==> Parity(left) != 0 || Parity(right) != 0 || InRange(left, right)
  {
    hide WellFormed, Plain, Value, Parity, InRange, SameAccess, ReadAccess, ToolAccess, Power24;
    WellFormedValue(text);
    ValueBound(Plain(text)[13..]);
    TwelveDigits();
    CodecsAgree(Value(Plain(text)[..13]).value, Value(Plain(text)[13..]).value);
  }

  lemma TwelveDigits()
    ensures Power24(12) < 0x100_0000_0000_0000
  {
    assert Power24(4) == 331776;
    assert Power24(8) == 24 * 24 * 24 * 24 * Power24(4);
    assert Power24(12) == 24 * 24 * 24 * 24 * Power24(8);
  }

  // A text of which they do not: the player drops the highest digit of the first number.
  lemma DecodersDiffer()
    ensures OVERFLOWING < Power24(13) && 0 < Power24(12)
    ensures var text := Format(OVERFLOWING, 0);
      WellFormed(text) && !SameAccess(AccessOf(text), ToolAccess(OVERFLOWING, 0))
  {
    hide WellFormed, Plain, Value, Parity, SameAccess, ReadAccess, ToolAccess, Format, Power24;
    ThirteenDigits();
    FormatReads(OVERFLOWING, 0);
    OverflowingParity();
    CodecsAgree(OVERFLOWING, 0);
  }

  const OVERFLOWING: nat := 0x800_0000_0000_0001

  lemma ThirteenDigits()
    ensures OVERFLOWING < Power24(13) && 0 < Power24(12)
  {
    assert Power24(4) == 331776;
    assert Power24(8) == 24 * 24 * 24 * 24 * Power24(4);
    assert Power24(12) == 24 * 24 * 24 * 24 * Power24(8);
    assert Power24(13) == 24 * Power24(12);
  }

  lemma OverflowingParity()
    ensures Parity(OVERFLOWING) == 0 && Parity(0) == 0
  {
    hide Pow2, Parity;
    PowerParity(58);
    Power58();
    assert OVERFLOWING / 2 == Pow2(58) && OVERFLOWING % 2 == 1;
    ParityStep(OVERFLOWING);
  }

  lemma ParityStep(n: nat)
    ensures Parity(0) == 0 && (0 < n ==> Parity(n) == (n % 2 + Parity(n / 2)) % 2)
  {
  }

  lemma Power58()
    ensures Pow2(58) == 0x400_0000_0000_0000
  {
    assert Pow2(2) == 4;
    Pow2Words();
    hide Pow2;
    Pow2Add(32, 16);
    Pow2Add(48, 8);
    Pow2Add(56, 2);
  }

  lemma {:induction false} PowerParity(k: nat)
    ensures Parity(Pow2(k)) == 1
  {
    if k == 0 {
      assert Parity(0) == 0;
    } else {
      PowerParity(k - 1);
    }
  }

  lemma PrintedInRange(cid: word32, uid: Uid)
    ensures InRange(AccessLeft(cid, uid), AccessRight(cid, uid))
  {
    hide AccessLeft, AccessRight;
    AccessBounds(cid, uid);
  }

  // The parity loop.
  method ParityOf(n: nat) returns (p: nat)
    ensures p == Parity(n)
  {
    p := 0;
    var rest := n;
    while rest != 0
      invariant p < 2 && (p + Parity(rest)) % 2 == Parity(n)
    {
      ParityRange(rest / 2);
      p := (p + rest % 2) % 2;
      rest := rest / 2;
    }
    ParityRange(n);
  }

  class Client {
    const request: array<byte>
    const response: array<byte>

    ghost predicate Valid() {
      request.Length == REQUEST_SIZE && response.Length == RESPONSE_SIZE && request != response
    }

    constructor ()
      ensures Valid() && fresh(request) && fresh(response)
    {
      request := new byte[REQUEST_SIZE](_ => 0);
      response := new byte[RESPONSE_SIZE](_ => 0);
    }

    method EnterAccessCode(text: seq<char>, crc: word32) returns (r: Entered)
      requires Valid()
      modifies request
      ensures r == EnteredAccess(text, crc)
      ensures r != Accepted ==> request[..] == old(request[..])
      ensures r == Accepted ==>
        request[..] == old(request[..4]) + ToLittleEndian(crc, 4)
          + AccessOf(text).uidBytes
    {
      hide WellFormed, Plain, Value, Position, Or, Xor, Parity, ToBigEndian, ToLittleEndian;
      var ok := ValidateFormat(text);
      if !ok {
        return BadFormat;
      }
      WellFormedValue(text);
      var left, right := DecodeRaw(text);
      var p := ParityOf(left);
      var q := ParityOf(right);
      if p != 0 || q != 0 {
        return WrongKey;
      }
      var l, r' := left / 2, right / 2;
      var uidLeft := l / 0x1_0000;
      var uidRight := r' / 0x1_0000;
      uidRight := Or(uidRight, uidLeft % 0x400 * P38);
      uidLeft := uidLeft / 0x400;
      var cid := Xor(l % 0x1_0000 * 0x1_0000 + r' % 0x1_0000, uidRight / 0x1000 % 0x1_0000_0000);
      if cid != crc {
        return WrongContent;
      }
      Write(request, 4, ToLittleEndian(cid, 4));
      Write(request, 8, ToBigEndian(uidLeft, 4));
      Write(request, 12, ToBigEndian(uidRight, 6));
      return Accepted;
    }

    method Stamp(stamp: word32)
      requires Valid()
      modifies request
      ensures request[..] == ToLittleEndian(stamp, 4) + old(request[4..])
    {
      hide ToLittleEndian;
      Write(request, 0, ToLittleEndian(stamp, 4));
    }

    method EncodeRequest() returns (sent: seq<byte>)
      requires Valid()
      ensures sent == Prefixed(request[..])
    {
      hide Xor;
      var out := new byte[REQUEST_SIZE](i requires 0 <= i < REQUEST_SIZE reads request => request[i]);
      assert out[..] == request[..];
      for i := 1 to REQUEST_SIZE
        invariant out[..i] == Prefixed(request[..i]) && out[i..] == request[i..]
      {
        assert request[..i + 1][..i] == request[..i];
        assert out[i] == request[i];
        out[i] := XorByte(out[i], out[i - 1]);
      }
      assert request[..REQUEST_SIZE] == request[..];
      return out[..];
    }

    // The request code shown to the user.
    method RequestCode() returns (text: seq<char>)
      requires Valid()
      ensures text == DecimalCode(Prefixed(request[..]))
    {
      hide Complement, Written, Prefixed, Group, Decimal;
      var sent := EncodeRequest();
      var words := Words(sent);
      text := [];
      for i := 0 to 9
        invariant text == if i == 0 then [] else Code(words[..i]) + ['-']
      {
        var c := DecimalComplement(words[i]);
        PrintedGroup(words[i]);
        text := text + [Decimal(c)] + Written(words[i], 5) + ['-'];
        assert words[..i + 1][..i] == words[..i];
      }
      assert words[..9] == words;
      text := text[..|text| - 1];
    }

    method CheckConfirmation(text: seq<char>) returns (ok: bool)
      ensures ok == IsCode(text, 7)
    {
      if 48 != |text| {
        return false;
      }
      for i := 0 to 48
        invariant forall j | 0 <= j < i :: if j % 7 == 6 then text[j] == '-' else IsDecimal(text[j])
      {
        if i % 7 == 6 {
          if '-' != text[i] {
            return false;
          }
        } else if !IsDecimal(text[i]) {
          return false;
        }
      }
      return true;
    }

    // Reads the confirmation code and removes the mask of the request.
    method EnterConfirmation(text: seq<char>) returns (r: Confirmed)
      requires Valid()
      modifies response
      ensures r == Malformed <==> !IsCode(text, 7)
      ensures r == Unmasked <==> IsCode(text, 7) && ReadCode(text, 7, 7).Some?
      // The first group that is wrong.
      ensures r.InvalidGroup? ==>
        && r.index < 7 && Complement(GroupOf(text, 7, r.index)) != 0
        && forall j | 0 <= j < r.index :: Complement(GroupOf(text, 7, j)) == 0
      ensures r == Unmasked ==>
        && |ReadCode(text, 7, 7).value| == RESPONSE_SIZE
        && response[..] == XorBytes(ReadCode(text, 7, 7).value, ResponseMask(Prefixed(request[..])))
    {
      hide Complement, Number, Prefixed, ToLittleEndian, IsCode, IsDecimal, Xor;
      var ok := CheckConfirmation(text);
      if !ok {
        return Malformed;
      }
      for i := 0 to 7
        invariant ReadCode(text, 7, i) == Some(response[..2 * i])
        invariant forall j | 0 <= j < i :: Complement(GroupOf(text, 7, j)) == 0
      {
        var group := GroupOf(text, 7, i);
        var c := DecimalComplement(group);
        if 0 != c {
          WrongGroup(text, 7, i, 7);
          return InvalidGroup(i);
        }
        ghost var was := response[..2 * i];
        Write(response, 2 * i, ToLittleEndian(group % 100000 % 0x1_0000, 2));
        assert response[..2 * (i + 1)] == was + ToLittleEndian(group % 100000 % 0x1_0000, 2);
      }
      ghost var bytes := response[..];
      assert response[..14] == response[..];
      var sent := EncodeRequest();
      for i := 0 to RESPONSE_SIZE
        invariant forall j | 0 <= j < i :: response[j] == XorByte(bytes[j], ResponseMask(sent)[j])
        invariant forall j | i <= j < RESPONSE_SIZE :: response[j] == bytes[j]
      {
        MaskByte(response[i], sent, i);
        response[i] := XorByte(response[i], XorByte(XorByte(sent[i], sent[i + 2]), sent[i + 4]));
      }
      return Unmasked;
    }

    // The key handed to the cipher.
    method Transform() returns (key: seq<byte>)
      requires Valid()
      ensures key == ProductKey.PlayerKey(BigEndian(response[..7]), BigEndian(response[7..]))
    {
      hide Expand;
      var a := Expand56(BigEndian(response[..7]));
      var b := Expand56(BigEndian(response[7..]));
      return ProductKey.Swapped(a) + ProductKey.Swapped(b);
    }
  }

  lemma PrintedGroup(w: word16)
    ensures Group(w) == [Decimal(Complement(w))] + Written(w, 5)
  {
    hide *;
    GroupParts(w);
    LeadingDigit(Complement(w), w, 5);
    WrittenDigit(Complement(w));
  }

  lemma GroupParts(w: word16)
    ensures w < Power10(5) && Group(w) == Written(Complement(w) * Power10(5) + w, 6)
  {
    assert Power10(5) == 100000;
    hide Complement, Written, Power10;
  }

  lemma WrittenDigit(d: nat)
    requires d < 10
    ensures Written(d, 1) == [Decimal(d)]
  {
    hide Decimal;
    assert d / 10 == 0 && d % 10 == d;
    WrittenNothing();
    hide DecimalValue, IsDecimal;
    assert Written(d, 1) == Written(d / 10, 0) + [Decimal(d % 10)];
  }

  lemma WrittenNothing()
    ensures Written(0, 0) == []
  {
  }

  lemma {:induction false} LeadingDigit(a: nat, b: nat, n: nat)
    requires b < Power10(n)
    ensures Written(a * Power10(n) + b, n + 1) == Written(a, 1) + Written(b, n)
    decreases n
  {
    hide Decimal;
    if n == 0 {
      assert Written(a, 1) + [] == Written(a, 1);
    } else {
      var p := Power10(n - 1);
      TenTimes(a, b, p);
      LeadingDigit(a, b / 10, n - 1);
    }
  }

  lemma TenTimes(a: nat, b: nat, p: nat)
    ensures (a * (10 * p) + b) / 10 == a * p + b / 10 && (a * (10 * p) + b) % 10 == b % 10
  {
    assert a * (10 * p) == 10 * (a * p);
  }

  lemma {:induction false} WrongGroup(text: seq<char>, n: nat, i: nat, k: nat)
    requires IsCode(text, n) && i < k <= n && Complement(GroupOf(text, n, i)) != 0
    ensures ReadCode(text, n, k).None?
    decreases k
  {
    hide Complement, IsCode;
    if i < k - 1 {
      WrongGroup(text, n, i, k - 1);
    }
  }

  lemma MaskByte(b: byte, sent: seq<byte>, i: nat)
    requires |sent| == REQUEST_SIZE && i < RESPONSE_SIZE
    ensures XorByte(b, XorByte(XorByte(sent[i], sent[i + 2]), sent[i + 4])) == XorByte(b, ResponseMask(sent)[i])
  {
    hide Xor;
  }
}
