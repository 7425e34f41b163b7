/** From the author's encryption to the user's plain text: content encrypted with a key,
  unlocked remotely, decrypts in place to what the author encrypted.
*/
module Unlock {
  import opened Bits
  import opened Bytes
  import opened Crc
  import Base24
  import opened Remote
  import opened ProductKey
  import opened Stream
  import opened Tool
  import Enc
  import EncObjects
  import opened RemoteClient
  import opened Wrappers

  // The content as the author publishes it; its identifier is the checksum of the plain text.
  ghost function Published(data: seq<byte>, key: seq<byte>, iv: seq<byte>): Enc.Content
    requires |key| == 14 && |iv| == 8
  {
    var stored := EncryptText(Encryptor(KeySchedule(ExpandKey(key))), iv, data);
    Enc.Content(TDES, Crc32(data), Enc.VERIFY, |stored|, stored)
  }

  lemma PublishedDecrypts(data: seq<byte>, key: seq<byte>, iv: seq<byte>)
    requires |key| == 14 && |iv| == 8 && |data| < 0x7FFF_FFF0
    ensures var c := Published(data, key, iv);
      && Enc.Valid(c) && Enc.Accepts(c, ExpandKey(key))
      && PlainText(TDES, c.bytes[..c.size], ExpandKey(key)) == data
  {
    hide KeySchedule, ExpandParts, EncryptText, PlainText, WellPadded, Usable, Crc32, Encryptor;
    var c := Published(data, key, iv);
    EncryptedText(TDES, ExpandKey(key), iv, data);
    assert c.bytes[..c.size] == c.bytes;
  }

  // An attempt with the key of the author succeeds and leaves the text of the author.
  lemma AttemptDelivers(data: seq<byte>, key: seq<byte>, iv: seq<byte>, store: Enc.KeyStore, p: Enc.Provider)
    requires |key| == RESPONSE_SIZE && |iv| == 8 && |data| < 0x7FFF_FFF0
    requires p.transform >= 0 && p.key == ExpandKey(key)
    ensures Enc.Valid(Published(data, key, iv)) && Enc.Complete(p)
    ensures var (d, _, status) := Enc.Attempt(Published(data, key, iv), store, false, p);
      status == 0 && d.size == |data| <= |d.bytes| && d.bytes[..d.size] == data
  {
    hide KeySchedule, EncryptText, PlainText, WellPadded, Usable, Verified, Crc32, ExpandParts;
    hide Enc.Decrypted, Enc.SaveKey, BigEndian, Pow2;
    PublishedDecrypts(data, key, iv);
    assert p.key[..16] == p.key;
    Enc.DecryptedText(Published(data, key, iv), ExpandKey(key));
  }

  // Whatever the cipher, an attempt with the key the author used succeeds and leaves the text of the author: of the
  // bytes a provider hands in, six are the key for XOR, eight for DES and sixteen for TDES.
  lemma AuthoredDelivers(cipher: Cipher, data: seq<byte>, key: seq<byte>, iv: seq<byte>, store: Enc.KeyStore,
                         p: Enc.Provider)
    requires |key| == (match cipher case XOR => 6 case DES => 8 case TDES => 16)
    requires |iv| == 8 && |data| < 0x7FFF_FFF0 && Enc.Complete(p) && key <= p.key && p.transform >= 0
    ensures var stored :=
        if cipher == XOR then XorText(key, data) else EncryptText(Encryptor(KeySchedule(key)), iv, data);
      var c := Enc.Content(cipher, Crc32(data), Enc.VERIFY, |stored|, stored);
      && Enc.Valid(c)
      && var (d, _, status) := Enc.Attempt(c, store, false, p);
        status == 0 && d.size == |data| <= |d.bytes| && d.bytes[..d.size] == data
  {
    hide KeySchedule, EncryptText, XorText, PlainText, Crc32, Enc.Decrypted, Enc.SaveKey, Encryptor, Decryptor, Padding;
    var stored := if cipher == XOR then XorText(key, data) else EncryptText(Encryptor(KeySchedule(key)), iv, data);
    var c := Enc.Content(cipher, Crc32(data), Enc.VERIFY, |stored|, stored);
    if cipher == XOR {
      XoredText(key, data);
    } else {
      EncryptedText(cipher, key, iv, data);
    }
    assert c.bytes[..c.size] == c.bytes;
    assert p.key[..|key|] == key;
    Enc.DecryptedText(c, key);
  }

  // ----- The exchange -----

  // The access code of a user lets the player in, and carries the user; it is refused for any other content.
  lemma CodeEntered(cid: word32, uid: Uid)
    ensures Base24.WellFormed(AccessCode(cid, uid)) && EnteredAccess(AccessCode(cid, uid), cid) == Accepted
    ensures forall crc: word32 | crc != cid :: EnteredAccess(AccessCode(cid, uid), crc) == WrongContent
    ensures AccessOf(AccessCode(cid, uid)) == Granted(cid, ToBigEndian(uid, 10))
  {
    hide AccessCode, ReadAccess, ToBigEndian, Base24.WellFormed, Base24.Plain, Base24.Value;
    AccessCodeReads(cid, uid);
  }

  // The request as the service reads it from the code shown, and what its answer unmasks to.
  lemma ChainReads(cid: word32, uid: Uid, stamp: word32, now: word32, key: seq<byte>, access: (nat, nat) -> bool)
    requires |key| == RESPONSE_SIZE && access(uid, cid) && InWindow(stamp, now)
    ensures var sent := Prefixed(RequestBytes(stamp, cid, ToBigEndian(uid, 10)));
      && |sent| == REQUEST_SIZE && IsCode(DecimalCode(sent), 9) && ReadCode(DecimalCode(sent), 9, 9) == Some(sent)
      && var reply := Serve(sent, now, access, BigEndian(key));
        && reply.Response? && |reply.bytes| == RESPONSE_SIZE
        && IsCode(DecimalCode(reply.bytes), 7) && ReadCode(DecimalCode(reply.bytes), 7, 7) == Some(reply.bytes)
        && XorBytes(reply.bytes, ResponseMask(sent)) == key
  {
    hide *;
    KeyBound(key);
    ToBigEndianRoundTrip(key);
    UnlockChain(cid, uid, stamp, now, BigEndian(key), access);
  }

  lemma KeyBound(key: seq<byte>)
    requires |key| == RESPONSE_SIZE
    ensures BigEndian(key) < Pow2(112)
  {
    hide BigEndian, Pow2;
    BigEndianBound(key);
  }

  lemma Stamped(request: seq<byte>, stamp: word32, cid: word32, uid: Uid)
    requires |request| == REQUEST_SIZE && request[4..] == ToLittleEndian(cid, 4) + ToBigEndian(uid, 10)
    ensures ToLittleEndian(stamp, 4) + request[4..] == RequestBytes(stamp, cid, ToBigEndian(uid, 10))
  {
    hide ToLittleEndian, ToBigEndian;
  }

  // The player asks for the key of a content, the service answers, and the player has the key: the user
  // enters the access code, sends the request code shown and enters the confirmation code that comes back.
  method Exchange(client: Client, cid: word32, uid: Uid, stamp: word32, now: word32, key: seq<byte>,
                  access: (nat, nat) -> bool)
    returns (cipherKey: seq<byte>)
    requires client.Valid() && |key| == RESPONSE_SIZE && access(uid, cid) && InWindow(stamp, now)
    modifies client.request, client.response
    ensures client.response[..] == key
    ensures cipherKey == ExpandKey(key)
  {
    hide AccessCode, EnteredAccess, AccessOf, ToLittleEndian, ToBigEndian, BigEndian, Prefixed, RequestBytes, Serve;
    hide DecimalCode, ReadCode, IsCode, ResponseMask, XorBytes, PlayerKey, ExpandKey, Base24.WellFormed;
    CodeEntered(cid, uid);
    ChainReads(cid, uid, stamp, now, key, access);
    var entered := client.EnterAccessCode(AccessCode(cid, uid), cid);
    assert client.request[4..] == ToLittleEndian(cid, 4) + ToBigEndian(uid, 10);
    Stamped(client.request[..], stamp, cid, uid);
    client.Stamp(stamp);
    var shown := client.RequestCode();
    var sent := ReadCode(shown, 9, 9).value;
    var reply := Serve(sent, now, access, BigEndian(key));
    var confirmed := client.EnterConfirmation(DecimalCode(reply.bytes));
    assert client.response[..7] == key[..7] && client.response[7..] == key[7..];
    cipherKey := client.Transform();
    SameKey(key);
  }

  // From the author's text to the user's buffer: after the exchange the player decrypts its content in place
  // to exactly what the author encrypted.
  method RemoteUnlock(client: Client, context: EncObjects.EncContext, vault: EncObjects.Vault, ghost data: seq<byte>,
                      ghost iv: seq<byte>, key: seq<byte>, uid: Uid, stamp: word32, now: word32,
                      access: (nat, nat) -> bool, save: bool, saveWorks: bool)
    returns (status: int)
    requires client.Valid() && client.request != context.content && client.response != context.content
    requires |key| == RESPONSE_SIZE && |iv| == 8 && |data| < 0x7FFF_FFF0
    requires context.View() == Published(data, key, iv)
    requires access(uid, context.crc) && InWindow(stamp, now)
    modifies client.request, client.response, context`size, context.content, context.stream, vault
    ensures status == 0 && context.size == |data| <= context.content.Length && context.content[..|data|] == data
  {
    hide Published, ExpandKey, Enc.Attempt;
    ghost var before := context.View();
    var cipherKey := Exchange(client, context.crc, uid, stamp, now, key, access);
    var p := Enc.Provider(0, 0, cipherKey, save, saveWorks);
    assert context.View() == before;
    AttemptDelivers(data, key, iv, vault.View(), p);
    status := context.DecryptContent(false, p, vault);
  }
}
