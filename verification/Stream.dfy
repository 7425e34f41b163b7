/** Encrypted streams (player/src/enc/enc.c:41-111, player/src/enc/cipher/des.c and xor.c).

  PlainByte gives, for a cipher, a key and the stored bytes, the byte the program
  delivers at an index; everything else about a stream is stated in terms of it. A
  block-cipher stream stores an initialization vector and then the ciphertext
  blocks, and its last plain byte is the length of the padding.
*/
module Stream {
  import opened Bits
  import opened Bytes
  import opened Crc
  import opened Des

  datatype Cipher = XOR | DES | TDES

  function KeyLength(cipher: Cipher): nat {
    match cipher
    case XOR => 6
    case DES => 8
    case TDES => 16
  }

  // ----- Blocks -----

  // The keys of single and of two-key triple DES.
  datatype Schedule = Single(k: RoundKeys) | Double(k1: RoundKeys, k2: RoundKeys)

  function KeySchedule(key: seq<byte>): Schedule
    requires |key| == 8 || |key| == 16
  {
    if |key| == 8 then Single(Subkeys(BigEndian(key)))
    else Double(Subkeys(BigEndian(key[..8])), Subkeys(BigEndian(key[8..])))
  }

  function EncryptBlock(s: Schedule, pt: nat): nat {
    match s
    case Single(k) => Crypt(k, pt, true)
    case Double(k1, k2) => Crypt(k1, Crypt(k2, Crypt(k1, pt, true), false), true)
  }

  function DecryptBlock(s: Schedule, ct: nat): nat {
    match s
    case Single(k) => Crypt(k, ct, false)
    case Double(k1, k2) => Crypt(k1, Crypt(k2, Crypt(k1, ct, false), true), false)
  }

  lemma BlockBound(s: Schedule, x: nat)
    ensures EncryptBlock(s, x) < Pow2(64)
    ensures DecryptBlock(s, x) < Pow2(64)
  {
    hide Crypt, Pow2;
    match s
    case Single(k) =>
      CryptBound(k, x, true);
      CryptBound(k, x, false);
    case Double(k1, k2) =>
      CryptBound(k1, Crypt(k2, Crypt(k1, x, true), false), true);
      CryptBound(k1, Crypt(k2, Crypt(k1, x, false), true), false);
  }

  lemma BlockRoundTrip(s: Schedule, pt: nat)
    requires pt < Pow2(64)
    ensures DecryptBlock(s, EncryptBlock(s, pt)) == pt
  {
    hide Crypt, Pow2;
    match s
    case Single(k) => CryptUndone(k, pt, true);
    case Double(k1, k2) =>
      var a := Crypt(k1, pt, true);
      var b := Crypt(k2, a, false);
      CryptBound(k1, pt, true);
      CryptBound(k2, a, false);
      CryptUndone(k1, pt, true);
      CryptUndone(k2, a, false);
      CryptUndone(k1, b, true);
  }

  // ----- The plain bytes of a block-cipher stream, for any decryption d of a block -----

  function Decryptor(s: Schedule): nat -> nat { ct => DecryptBlock(s, ct) }

  function Block(data: seq<byte>, position: nat): nat
    requires position + 8 <= |data|
  {
    BigEndian(data[position..position + 8])
  }

  predicate BlockLength(length: nat) { 16 <= length && length % 8 == 0 }

  // The plain block that ends where the stored block at this position does.
  function PlainBlock(d: nat -> nat, data: seq<byte>, position: nat): nat
    requires 8 <= position && position + 8 <= |data|
  {
    Xor(d(Block(data, position)), Block(data, position - 8))
  }

  function BlockByte(d: nat -> nat, data: seq<byte>, i: nat): byte
    requires BlockLength(|data|) && i < |data| - 8
  {
    ToBigEndian(PlainBlock(d, data, 8 + (i - i % 8)), 8)[i % 8]
  }

  function PaddedText(d: nat -> nat, data: seq<byte>): (t: seq<byte>)
    requires BlockLength(|data|)
    ensures |t| == |data| - 8
  {
    seq(|data| - 8, i requires 0 <= i < |data| - 8 => BlockByte(d, data, i))
  }

  function Padding(d: nat -> nat, data: seq<byte>): byte
    requires BlockLength(|data|)
  {
    PaddedText(d, data)[|data| - 9]
  }

  // What the memo of the random-access view may hold: nothing, or the plain block of its position.
  ghost predicate Memo(d: nat -> nat, data: seq<byte>, position: nat, plain: nat) {
    position == 0
    || (8 <= position && position % 8 == 0 && position + 8 <= |data| && plain == PlainBlock(d, data, position))
  }

  lemma MemoSet(d: nat -> nat, data: seq<byte>, position: nat)
    requires 8 <= position && position % 8 == 0 && position + 8 <= |data|
    ensures Memo(d, data, position, PlainBlock(d, data, position))
  {
  }

  lemma MemoHolds(d: nat -> nat, data: seq<byte>, position: nat, plain: nat)
    requires Memo(d, data, position, plain) && position != 0
    ensures 8 <= position && position + 8 <= |data| && plain == PlainBlock(d, data, position)
  {
  }

  // ----- The plain text of a stream of either kind -----

  predicate Usable(cipher: Cipher, data: seq<byte>, key: seq<byte>) {
    if cipher == XOR then 0 < |key| else (|key| == 8 || |key| == 16) && BlockLength(|data|)
  }

  predicate WellPadded(cipher: Cipher, data: seq<byte>, key: seq<byte>)
    requires Usable(cipher, data, key)
  {
    cipher == XOR || Padding(Decryptor(KeySchedule(key)), data) <= 8
  }

  function AllBytes(cipher: Cipher, data: seq<byte>, key: seq<byte>): (t: seq<byte>)
    requires Usable(cipher, data, key)
    ensures |t| == if cipher == XOR then |data| else |data| - 8
  {
    if cipher == XOR then seq(|data|, i requires 0 <= i < |data| => XorByte(data[i], key[i % |key|]))
    else PaddedText(Decryptor(KeySchedule(key)), data)
  }

  function PlainText(cipher: Cipher, data: seq<byte>, key: seq<byte>): (t: seq<byte>)
    requires Usable(cipher, data, key) && WellPadded(cipher, data, key)
    ensures if cipher == XOR then |t| == |data| else |t| <= |data| - 8
  {
    if cipher == XOR then AllBytes(cipher, data, key)
    else AllBytes(cipher, data, key)[..|data| - 8 - Padding(Decryptor(KeySchedule(key)), data)]
  }

  // What verification accepts.
  predicate Verified(cipher: Cipher, data: seq<byte>, key: seq<byte>, crc: word32)
    requires Usable(cipher, data, key)
  {
    WellPadded(cipher, data, key) && Crc32(PlainText(cipher, data, key)) == crc
  }

  // The last byte of a block stream is the length of its padding, of at most eight bytes, which is not of the text.
  lemma VerifiedExactly(cipher: Cipher, data: seq<byte>, key: seq<byte>, crc: word32)
    requires Usable(cipher, data, key)
    ensures var bytes := AllBytes(cipher, data, key);
      Verified(cipher, data, key, crc) <==>
        if cipher == XOR then Crc32(bytes) == crc
        else
          var padding := bytes[|bytes| - 1];
          padding <= 8 && Crc32(bytes[..|bytes| - padding]) == crc
  {
    hide PaddedText, KeySchedule, Crc32;
  }

  // Before a position everything is decrypted, eight bytes further down, and from the block before it on nothing is
  // overwritten yet.
  ghost predicate Halfway(d: nat -> nat, stored: seq<byte>, before: seq<byte>, dst: seq<byte>, data: seq<byte>,
                          position: nat)
  {
    && BlockLength(|stored|) && 8 <= position <= |stored| - 8 && position % 8 == 0
    && |stored| - 16 <= |dst| == |before| && |stored| <= |data|
    && dst == PaddedText(d, stored)[..position - 8] + before[position - 8..]
    && data[position - 8..|stored|] == stored[position - 8..]
  }

  lemma NotYet(d: nat -> nat, stored: seq<byte>, dst: seq<byte>, data: seq<byte>)
    requires BlockLength(|stored|) && |stored| - 16 <= |dst| && stored <= data
    ensures Halfway(d, stored, dst, dst, data, 8)
  {
    hide PaddedText;
    assert data[0..|stored|] == stored;
  }

  // ----- The stream object -----

  class Stream {
    var cipher: Cipher
    var data: array<byte>
    var dataLength: nat
    var key: seq<byte>
    var schedule: Schedule
    var atPosition: nat
    var atPlain: nat

    constructor ()
      ensures fresh(data)
    {
      cipher, data, dataLength, key := XOR, new byte[0], 0, [];
      schedule := Single(seq(16, _ => 0));
      atPosition, atPlain := 0, 0;
    }

    ghost function Stored(): seq<byte>
      reads this, data
      requires dataLength <= data.Length
    {
      data[..dataLength]
    }

    // The stream was prepared and its data not yet overwritten. The memo of the
    // random-access view is either unset or holds the plain block of its position.
    ghost predicate Ready()
      reads this, data
    {
      && dataLength <= data.Length
      && Usable(cipher, Stored(), key)
      && (cipher != XOR ==>
        && schedule == KeySchedule(key)
        && Memo(Decryptor(schedule), Stored(), atPosition, atPlain))
    }

    method Prepare(cipher: Cipher, data: array<byte>, dataLength: nat, key: seq<byte>) returns (ok: bool)
      requires dataLength <= data.Length
      requires cipher == XOR ==> 0 < |key|
      modifies this
      ensures ok == Usable(cipher, data[..dataLength], key)
      ensures ok ==> Ready()
      ensures this.cipher == cipher && this.data == data && this.dataLength == dataLength && this.key == key
    {
      hide Subkeys, BigEndian, PlainBlock;
      this.cipher, this.data, this.dataLength, this.key := cipher, data, dataLength, key;
      if cipher == XOR {
        return true;
      }
      if 8 != |key| && 16 != |key| {
        return false;
      }
      if dataLength % 8 != 0 {
        return false;
      }
      if 16 > dataLength {
        return false;
      }
      atPosition, atPlain := 0, 0;
      if |key| == 8 {
        var k := GenerateSubkeys(BigEndian(key));
        schedule := Single(k);
      } else {
        var k1 := GenerateSubkeys(BigEndian(key[..8]));
        var k2 := GenerateSubkeys(BigEndian(key[8..]));
        schedule := Double(k1, k2);
      }
      return true;
    }

    method GetPlain(iv: nat, ct: nat) returns (pt: nat)
      requires (|key| == 8 || |key| == 16) && schedule == KeySchedule(key)
      ensures pt == Xor(Decryptor(schedule)(ct), iv)
    {
      hide Subkeys, BigEndian, Xor, Crypt, Pow2;
      if 16 == |key| {
        var x := CryptBlock(schedule.k1, ct, false);
        x := CryptBlock(schedule.k2, x, true);
        x := CryptBlock(schedule.k1, x, false);
        return Xor(x, iv);
      }
      var x := CryptBlock(schedule.k, ct, false);
      return Xor(x, iv);
    }

    // The byte at an index, through the memo of the last block.
    method At(i: nat) returns (b: byte)
      requires Ready() && i < |AllBytes(cipher, Stored(), key)|
      modifies this`atPosition, this`atPlain
      ensures Ready()
      ensures b == AllBytes(cipher, Stored(), key)[i]
    {
      hide Subkeys, BigEndian, Xor, Decryptor, ToBigEndian;
      if cipher == XOR {
        return XorByte(data[i], key[i % |key|]);
      }
      b := BlockAt(i);
    }

    method BlockAt(i: nat) returns (b: byte)
      requires Ready() && cipher != XOR && i < |AllBytes(cipher, Stored(), key)|
      modifies this`atPosition, this`atPlain
      ensures Ready()
      ensures b == AllBytes(cipher, Stored(), key)[i]
    {
      hide ToBigEndian, AllBytes, KeySchedule, Decryptor, PlainBlock, Usable, Memo;
      BlockByteMeans(cipher, Stored(), key, i);
      var position := 8 + (i - i % 8);
      if atPosition != position {
        var plain := ReadPlain(position);
        atPosition, atPlain := position, plain;
        MemoSet(Decryptor(schedule), Stored(), position);
      }
      MemoHolds(Decryptor(schedule), Stored(), atPosition, atPlain);
      return ToBigEndian(atPlain, 8)[i % 8];
    }

    // The plain block that belongs to a position.
    method ReadPlain(position: nat) returns (plain: nat)
      requires Ready() && cipher != XOR && 8 <= position && position + 8 <= dataLength
      ensures plain == PlainBlock(Decryptor(schedule), Stored(), position)
    {
      hide BigEndian, Xor, Decryptor, KeySchedule, BlockLength;
      var iv := BigEndian(data[position - 8..position]);
      var ct := BigEndian(data[position..position + 8]);
      StoredBlock(data[..], dataLength, position);
      StoredBlock(data[..], dataLength, position - 8);
      plain := GetPlain(iv, ct);
    }

    method CalculateCrc(length: nat) returns (result: word32)
      requires Ready() && length <= |AllBytes(cipher, Stored(), key)|
      modifies this`atPosition, this`atPlain
      ensures Ready()
      ensures result == Crc32(AllBytes(cipher, Stored(), key)[..length])
    {
      hide Xor, Entry, XorHex, AllBytes, Usable, Register, KeySchedule, Memo;
      ghost var bytes := AllBytes(cipher, Stored(), key);
      NothingRegistered();
      var crc: nat := 0xFFFF_FFFF;
      for i := 0 to length
        invariant Ready()
        invariant crc == Register(bytes[..i])
      {
        var b := At(i);
        RegisterStep(bytes, i);
        crc := Xor(crc / 0x10, Entry(XorHex(crc % 0x10, b % 0x10)));
        crc := Xor(crc / 0x10, Entry(XorHex(crc % 0x10, b / 0x10)));
      }
      RegisterBound(bytes[..length]);
      result := Not32(crc);
    }

    method Verify(crc: word32) returns (ok: bool)
      requires Ready()
      modifies this`atPosition, this`atPlain
      ensures Ready()
      ensures ok == Verified(cipher, Stored(), key, crc)
    {
      hide KeySchedule, PaddedText, PlainBlock, BigEndian, Crc32, Register, Not32, Pow2;
      if cipher == XOR {
        var c := CalculateCrc(dataLength);
        ghost var bytes := AllBytes(cipher, Stored(), key);
        assert bytes[..dataLength] == bytes;
        return crc == c;
      }
      if 16 > dataLength {
        return false;
      }
      ghost var stored := Stored();
      var position := dataLength - 8;
      var iv := BigEndian(data[position - 8..position]);
      assert data[position - 8..position] == stored[position - 8..position];
      assert data[position..position + 8] == stored[position..position + 8];
      var _, bytes := PlainAt(position, iv, stored);
      var padding := bytes[7];
      assert padding == Padding(Decryptor(schedule), stored);
      if 8 < padding {
        return false;
      }
      var c := CalculateCrc(dataLength - 8 - padding);
      return crc == c;
    }

    ghost predicate Decryptable()
      reads this, data
    {
      Ready() && WellPadded(cipher, Stored(), key)
    }

    ghost function Text(): seq<byte>
      reads this, data
      requires Decryptable()
    {
      PlainText(cipher, Stored(), key)
    }

    // Writes the plain text to dst, which may be the buffer being decrypted.
    method Decrypt(dst: array<byte>)
      requires Decryptable() && |Text()| <= dst.Length
      modifies dst, this`dataLength
      ensures dataLength == |old(Text())|
      ensures dst[..] == old(Text() + dst[|Text()|..])
    {
      hide PaddedText, KeySchedule;
      if cipher == XOR {
        XorDecrypt(dst);
      } else {
        BlockDecrypt(dst);
      }
    }

    // The plain bytes of one block, given the stored block before it.
    method PlainAt(position: nat, previous: nat, ghost stored: seq<byte>) returns (ct: nat, bytes: seq<byte>)
      requires (|key| == 8 || |key| == 16) && schedule == KeySchedule(key)
      requires BlockLength(|stored|) && 8 <= position && position % 8 == 0 && position + 8 <= |stored| <= data.Length
      requires data[position..position + 8] == stored[position..position + 8]
      requires previous == Block(stored, position - 8)
      ensures ct == Block(stored, position)
      ensures bytes == PaddedText(Decryptor(schedule), stored)[position - 8..position]
    {
      hide KeySchedule, BigEndian, Xor, Decryptor, ToBigEndian, PaddedText;
      ct := BigEndian(data[position..position + 8]);
      var pt := GetPlain(previous, ct);
      PlainBytes(Decryptor(schedule), stored, position - 8);
      bytes := ToBigEndian(pt, 8);
    }

    // One turn of the loop: the block at position goes, decrypted, eight bytes further down.
    method DecryptBlockAt(dst: array<byte>, position: nat, previous: nat,
                          ghost stored: seq<byte>, ghost before: seq<byte>) returns (ct: nat)
      requires (|key| == 8 || |key| == 16) && schedule == KeySchedule(key)
      requires position + 8 < dataLength == |stored|
      requires Halfway(Decryptor(schedule), stored, before, dst[..], data[..], position)
      requires previous == Block(stored, position - 8)
      modifies dst
      ensures Halfway(Decryptor(schedule), stored, before, dst[..], data[..], position + 8)
      ensures ct == Block(stored, position)
    {
      hide KeySchedule, Decryptor, PaddedText, PlainBlock, BigEndian, Pow2;
      ghost var was, dataWas := dst[..], data[..];
      assert data[position - 8..dataLength] == dataWas[position - 8..dataLength];
      Suffixes(dataWas, stored, position - 8, position);
      ghost var text := PaddedText(Decryptor(schedule), stored);
      var bytes;
      ct, bytes := PlainAt(position, previous, stored);
      Write(dst, position - 8, bytes);
      Extended(dst[..], was, text, before, position - 8, bytes);
      assert data[..][position..|stored|] == dataWas[position - 8..|stored|][8..] == stored[position - 8..][8..];
    }

    // All blocks but the last one.
    method DecryptWholeBlocks(dst: array<byte>, ghost stored: seq<byte>) returns (ctPrevious: nat)
      requires (|key| == 8 || |key| == 16) && schedule == KeySchedule(key)
      requires BlockLength(|stored|) && |stored| == dataLength <= data.Length && stored == data[..dataLength]
      requires dataLength - 16 <= dst.Length
      modifies dst
      ensures ctPrevious == Block(stored, dataLength - 16)
      ensures Halfway(Decryptor(schedule), stored, old(dst[..]), dst[..], data[..], dataLength - 8)
    {
      hide KeySchedule, Decryptor, PaddedText, PlainBlock, BigEndian, BlockLength, Block, Halfway;
      LengthBound(|stored|);
      ghost var before := dst[..];
      ctPrevious := BigEndian(data[..8]);
      FirstBlock(stored);
      assert data[..8] == stored[..8];
      NotYet(Decryptor(schedule), stored, dst[..], data[..]);
      var position := 8;
      while position < dataLength - 8
        invariant 8 <= position <= dataLength - 8 && position % 8 == 0
        invariant Halfway(Decryptor(schedule), stored, before, dst[..], data[..], position)
        invariant ctPrevious == Block(stored, position - 8)
      {
        ctPrevious := DecryptBlockAt(dst, position, ctPrevious, stored, before);
        position := position + 8;
      }
    }

    // The last block, without its padding.
    method DecryptLastBlock(dst: array<byte>, previous: nat, ghost stored: seq<byte>, ghost before: seq<byte>)
      returns (padding: byte)
      requires (|key| == 8 || |key| == 16) && schedule == KeySchedule(key) && dataLength == |stored|
      requires BlockLength(|stored|) && Padding(Decryptor(schedule), stored) <= 8
      requires Halfway(Decryptor(schedule), stored, before, dst[..], data[..], |stored| - 8)
      requires previous == Block(stored, |stored| - 16)
      requires |stored| - 8 - Padding(Decryptor(schedule), stored) <= dst.Length
      modifies dst
      ensures padding == Padding(Decryptor(schedule), stored)
      ensures dst[..] == PaddedText(Decryptor(schedule), stored)[..|stored| - 8 - padding]
                         + before[|stored| - 8 - padding..]
    {
      hide KeySchedule, Decryptor, PaddedText, PlainBlock, BigEndian, Pow2;
      ghost var was, text := dst[..], PaddedText(Decryptor(schedule), stored);
      var length := dataLength - 8;
      Suffixes(data[..], stored, length - 8, length);
      var _, bytes := PlainAt(length, previous, stored);
      padding := bytes[7];
      LastByteIsPadding(Decryptor(schedule), stored, bytes);
      Write(dst, length - 8, bytes[..8 - padding]);
      Extended(dst[..], was, text, before, length - 8, bytes[..8 - padding]);
    }

    method BlockDecrypt(dst: array<byte>)
      requires Decryptable() && cipher != XOR && |Text()| <= dst.Length
      modifies dst, this`dataLength
      ensures dataLength == |old(Text())|
      ensures dst[..] == old(Text() + dst[|Text()|..])
    {
      hide KeySchedule, Decryptor, PaddedText, PlainBlock, BigEndian, Pow2, Padding, Block;
      hide PlainText, WellPadded, Usable, AllBytes, Halfway, Memo;
      ghost var stored, before, text := Stored(), dst[..], Text();
      BlockText(cipher, stored, key);
      LengthBound(|stored|);
      hide BlockLength;
      assert |text| == dataLength - 8 - Padding(Decryptor(schedule), stored);
      var ctPrevious := DecryptWholeBlocks(dst, stored);
      var padding := DecryptLastBlock(dst, ctPrevious, stored, before);
      dataLength := dataLength - 8 - padding;
    }

    method XorDecrypt(dst: array<byte>)
      requires Decryptable() && cipher == XOR && dataLength <= dst.Length
      modifies dst
      ensures dataLength == |old(Text())|
      ensures dst[..] == old(Text() + dst[|Text()|..])
    {
      hide Xor;
      ghost var text := Text();
      for i := 0 to dataLength
        invariant forall j | i <= j < dst.Length :: dst[j] == old(dst[j])
        invariant forall j | i <= j < data.Length :: data[j] == old(data[j])
        invariant forall j | 0 <= j < i :: dst[j] == text[j]
      {
        dst[i] := XorByte(data[i], key[i % |key|]);
      }
    }
  }

  lemma BlockByteMeans(cipher: Cipher, data: seq<byte>, key: seq<byte>, i: nat)
    requires cipher != XOR && Usable(cipher, data, key) && i < |AllBytes(cipher, data, key)|
    ensures var position := 8 + (i - i % 8);
      && position % 8 == 0 && position + 8 <= |data|
      && AllBytes(cipher, data, key)[i]
         == ToBigEndian(PlainBlock(Decryptor(KeySchedule(key)), data, position), 8)[i % 8]
  {
    hide Decryptor, KeySchedule, PlainBlock, ToBigEndian;
  }

  lemma FirstBlock(data: seq<byte>)
    requires 8 <= |data|
    ensures Block(data, 0) == BigEndian(data[..8])
  {
    assert data[0..8] == data[..8];
  }

  lemma LastByteIsPadding(d: nat -> nat, data: seq<byte>, bytes: seq<byte>)
    requires BlockLength(|data|) && bytes == PaddedText(d, data)[|data| - 16..|data| - 8]
    ensures |bytes| == 8 && bytes[7] == Padding(d, data)
  {
    hide PaddedText;
  }

  lemma BlockText(cipher: Cipher, data: seq<byte>, key: seq<byte>)
    requires cipher != XOR && Usable(cipher, data, key) && WellPadded(cipher, data, key)
    ensures (|key| == 8 || |key| == 16) && BlockLength(|data|)
    ensures var d := Decryptor(KeySchedule(key));
      Padding(d, data) <= 8 && PlainText(cipher, data, key) == PaddedText(d, data)[..|data| - 8 - Padding(d, data)]
  {
    hide PaddedText, KeySchedule, Decryptor;
  }

  lemma LengthBound(length: nat)
    requires BlockLength(length)
    ensures 16 <= length && length % 8 == 0
  {
  }

  lemma StoredBlock(all: seq<byte>, length: nat, position: nat)
    requires position + 8 <= length <= |all|
    ensures all[position..position + 8] == all[..length][position..position + 8]
  {
  }

  // The eight plain bytes from a block boundary are the digits of one plain block.
  lemma PlainBytes(d: nat -> nat, data: seq<byte>, out: nat)
    requires BlockLength(|data|) && out % 8 == 0 && out + 16 <= |data|
    ensures PaddedText(d, data)[out..out + 8] == ToBigEndian(PlainBlock(d, data, out + 8), 8)
  {
    hide PlainBlock, ToBigEndian;
  }

  lemma Extended(now: seq<byte>, was: seq<byte>, text: seq<byte>, before: seq<byte>, out: nat, bytes: seq<byte>)
    requires out + |bytes| <= |text| && out + |bytes| <= |before| == |was|
    requires was == text[..out] + before[out..]
    requires bytes == text[out..out + |bytes|]
    requires now == was[..out] + bytes + was[out + |bytes|..]
    ensures now == text[..out + |bytes|] + before[out + |bytes|..]
  {
    assert text[..out + |bytes|] == text[..out] + bytes;
  }

  lemma Suffixes(now: seq<byte>, stored: seq<byte>, out: nat, position: nat)
    requires out + 8 == position && position + 8 <= |stored| <= |now|
    requires now[out..|stored|] == stored[out..]
    ensures now[position..position + 8] == stored[position..position + 8]
  {
    forall i | position <= i < position + 8 ensures now[i] == stored[i] {
      assert now[out..|stored|][i - out] == stored[out..][i - out];
    }
  }
}
