/** The encrypting side (tools/lavender/cipher/des.py and xor.py).

  The tool pads the data (section 6.3 of RFC 5652), chains the blocks (section 6.2 of
  NIST SP 800-38A) and writes the initialization vector before them. The player's
  stream over what the tool wrote is the original data.
*/
module Tool {
  import opened Bits
  import opened Bytes
  import opened Des
  import opened Stream

  function Pad(data: seq<byte>): (t: seq<byte>)
    ensures |t| % 8 == 0 && |t| > 0
  {
    var k: byte := 8 - |data| % 8;
    data + seq(k, _ => k)
  }

  function ChainBlocks(e: nat -> nat, previous: nat, text: seq<byte>): (ct: seq<byte>)
    requires |text| % 8 == 0
    ensures |ct| == |text|
    decreases |text|
  {
    if text == [] then []
    else
      var ct := e(Xor(BigEndian(text[..8]), previous));
      ToBigEndian(ct, 8) + ChainBlocks(e, ct, text[8..])
  }

  function EncryptText(e: nat -> nat, iv: seq<byte>, data: seq<byte>): (stored: seq<byte>)
    requires |iv| == 8
    ensures BlockLength(|stored|)
  {
    iv + ChainBlocks(e, BigEndian(iv), Pad(data))
  }

  // d decrypts what e encrypts.
  ghost predicate BlockCipher(e: nat -> nat, d: nat -> nat) {
    forall x: nat | x < Pow2(64) :: e(x) < Pow2(64) && d(e(x)) == x
  }

  // Dropping the first stored block drops the first plain block.
  lemma PaddedTextTail(d: nat -> nat, data: seq<byte>)
    requires BlockLength(|data|) && 24 <= |data|
    ensures PaddedText(d, data) == ToBigEndian(PlainBlock(d, data, 8), 8) + PaddedText(d, data[8..])
  {
    hide PlainBlock, ToBigEndian;
    forall i | 8 <= i < |data| - 8
      ensures BlockByte(d, data, i) == BlockByte(d, data[8..], i - 8)
    {
      SameByte(d, data, i);
    }
    PlainBytes(d, data, 0);
  }

  lemma SameByte(d: nat -> nat, data: seq<byte>, i: nat)
    requires BlockLength(|data|) && 24 <= |data| && 8 <= i < |data| - 8
    ensures BlockLength(|data[8..]|)
    ensures BlockByte(d, data, i) == BlockByte(d, data[8..], i - 8)
  {
    hide PlainBlock, ToBigEndian;
    assert (i - 8) % 8 == i % 8;
    PlainBlockTail(d, data, 8 + (i - i % 8));
  }

  lemma PlainBlockTail(d: nat -> nat, data: seq<byte>, position: nat)
    requires 16 <= position && position + 8 <= |data|
    ensures PlainBlock(d, data, position) == PlainBlock(d, data[8..], position - 8)
  {
    hide BigEndian, Xor;
    SliceOfDrop(data, 8, position - 8, position);
    SliceOfDrop(data, 8, position - 16, position - 8);
  }

  lemma ChainedBlock(e: nat -> nat, d: nat -> nat, previous: nat, text: seq<byte>)
    requires BlockCipher(e, d)
    requires |text| % 8 == 0 && 8 <= |text| && previous < Pow2(64)
    ensures e(Xor(BigEndian(text[..8]), previous)) < Pow2(64)
    ensures var data := ToBigEndian(previous, 8) + ChainBlocks(e, previous, text);
      PlainBlock(d, data, 8) == BigEndian(text[..8])
  {
    hide BigEndian, ToBigEndian, Xor, Pow2;
    var pt := BigEndian(text[..8]);
    var ct := e(Xor(pt, previous));
    var data := ToBigEndian(previous, 8) + ChainBlocks(e, previous, text);
    assert data[0..8] == ToBigEndian(previous, 8);
    assert data[8..16] == ToBigEndian(ct, 8);
    BigEndianBound(text[..8]);
    XorBound(pt, previous, 64);
    BigEndianRoundTrip(previous, 8);
    BigEndianRoundTrip(ct, 8);
    assert d(ct) == Xor(pt, previous);
    XorCancel(pt, previous);
  }

  lemma {:induction false} ChainRoundTrip(e: nat -> nat, d: nat -> nat, previous: nat, text: seq<byte>)
    requires BlockCipher(e, d)
    requires |text| % 8 == 0 && 8 <= |text| && previous < Pow2(64)
    ensures PaddedText(d, ToBigEndian(previous, 8) + ChainBlocks(e, previous, text)) == text
    decreases |text|
  {
    hide PaddedText, PlainBlock, BigEndian, ToBigEndian, Xor, Pow2;
    var ct := e(Xor(BigEndian(text[..8]), previous));
    var data := ToBigEndian(previous, 8) + ChainBlocks(e, previous, text);
    ChainedBlock(e, d, previous, text);
    ToBigEndianRoundTrip(text[..8]);
    assert ToBigEndian(PlainBlock(d, data, 8), 8) == text[..8];
    if |text| == 8 {
      PlainBytes(d, data, 0);
    } else {
      assert data[8..] == ToBigEndian(ct, 8) + ChainBlocks(e, ct, text[8..]);
      ChainRoundTrip(e, d, ct, text[8..]);
      PaddedTextTail(d, data);
    }
  }

  // Whatever its length, data encrypted by the tool decrypts to itself.
  lemma EncryptedText(cipher: Cipher, key: seq<byte>, iv: seq<byte>, data: seq<byte>)
    requires cipher != XOR && |key| == KeyLength(cipher) && |iv| == 8
    ensures var stored := EncryptText(Encryptor(KeySchedule(key)), iv, data);
      && Usable(cipher, stored, key) && WellPadded(cipher, stored, key)
      && PlainText(cipher, stored, key) == data
      && |stored| == |data| + 16 - |data| % 8
  {
    hide KeySchedule, Encryptor, Decryptor, PaddedText, ChainBlocks, BigEndian, ToBigEndian, Pow2;
    var s := KeySchedule(key);
    var e, d := Encryptor(s), Decryptor(s);
    ScheduleCipher(s);
    BigEndianBound(iv);
    ToBigEndianRoundTrip(iv);
    ChainRoundTrip(e, d, BigEndian(iv), Pad(data));
    assert PaddedText(d, EncryptText(e, iv, data)) == Pad(data);
  }

  function Encryptor(s: Schedule): nat -> nat { pt => EncryptBlock(s, pt) }

  lemma ScheduleCipher(s: Schedule)
    ensures BlockCipher(Encryptor(s), Decryptor(s))
  {
    hide EncryptBlock, DecryptBlock, Pow2;
    forall x: nat | x < Pow2(64)
      ensures Encryptor(s)(x) < Pow2(64) && Decryptor(s)(Encryptor(s)(x)) == x
    {
      BlockBound(s, x);
      BlockRoundTrip(s, x);
    }
  }

  function XorText(key: seq<byte>, data: seq<byte>): seq<byte>
    requires |key| == 6
  {
    seq(|data|, i requires 0 <= i < |data| => XorByte(data[i], key[i % 6]))
  }

  lemma XoredText(key: seq<byte>, data: seq<byte>)
    requires |key| == 6
    ensures PlainText(XOR, XorText(key, data), key) == data
  {
    hide Xor;
    forall i | 0 <= i < |data|
      ensures PlainText(XOR, XorText(key, data), key)[i] == data[i]
    {
      XorCancel(data[i], key[i % 6]);
    }
  }
}
