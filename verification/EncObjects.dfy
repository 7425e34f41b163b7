/** The objects of player/src/enc/enc.c, updated in place. Each method is proved to
  have the effect the function of the same purpose in module Enc states.
*/
module EncObjects {
  import opened Bits
  import opened Bytes
  import opened Crc
  import Streams = Stream
  import opened Enc
  import opened Wrappers

  // The platform's state storage, with the machine identifier that binds what is saved.
  class Vault {
    var machineId: Option<MachineId>
    var saved: map<word32, seq<byte>>

    ghost function View(): KeyStore
      reads this
    {
      KeyStore(machineId, saved)
    }

    method Load(cid: word32, size: nat) returns (key: Option<seq<byte>>)
      ensures key == LoadKey(View(), cid, size)
    {
      if machineId.None? {
        return None;
      }
      if cid !in saved || |saved[cid]| != size {
        return None;
      }
      var buffer := [];
      for i := 0 to size
        invariant buffer == Bind(saved[cid], machineId.value)[..i]
      {
        buffer := buffer + [XorByte(saved[cid][i], machineId.value[i % MACHINE_ID_SIZE])];
      }
      assert buffer == Bind(saved[cid], machineId.value);
      return Some(buffer);
    }

    method Save(cid: word32, key: seq<byte>, works: bool)
      modifies this
      ensures View() == SaveKey(old(View()), cid, key, works)
    {
      if KEY_LENGTH_MAX < |key| || machineId.None? {
        return;
      }
      var bound := [];
      for i := 0 to |key|
        invariant View() == old(View())
        invariant bound == Bind(key, machineId.value)[..i]
      {
        bound := bound + [XorByte(key[i], machineId.value[i % MACHINE_ID_SIZE])];
      }
      assert bound == Bind(key, machineId.value);
      if works {
        saved := saved[cid := bound];
      }
    }
  }

  class EncContext {
    var cipher: Streams.Cipher
    var content: array<byte>
    var size: nat
    var crc: word32
    var phase: Phase
    const stream: Streams.Stream

    constructor (content: array<byte>)
      ensures this.content == content && fresh(stream)
    {
      this.content := content;
      cipher, size, crc, phase := Streams.XOR, 0, 0, INITIALIZE;
      stream := new Streams.Stream();
    }

    ghost function View(): Content
      reads this, content
    {
      Content(cipher, crc, phase, size, content[..])
    }

    method RecordLength(length: nat)
      requires 4 <= size <= content.Length
      modifies content, this`size
      ensures size == length
      ensures content[..] == old(content[..][..size - 4] + ToLittleEndian(length, 4) + content[..][size..])
    {
      hide ToLittleEndian;
      Write(content, size - 4, ToLittleEndian(length, 4));
      size := length;
    }

    // Decryption of the prepared and verified stream over its own buffer, with the length recorded.
    method DecryptOver(ghost key: seq<byte>)
      requires Valid(View()) && Accepts(View(), key)
      requires stream.data == content && stream.dataLength == size
      requires stream.key == key && stream.cipher == cipher && stream.Ready()
      modifies content, stream, this`size
      ensures View() == Decrypted(old(View()), key)
    {
      hide Streams.PlainText, Streams.WellPadded, Streams.Usable, Crc32, ToLittleEndian;
      hide Streams.KeySchedule, Streams.PlainBlock, Streams.Decryptor, Pow2;
      assert stream.Stored() == View().bytes[..size];
      stream.Decrypt(content);
      if cipher != Streams.XOR {
        RecordLength(stream.dataLength);
      }
    }

    method DecryptContent(load: bool, p: Provider, vault: Vault) returns (status: int)
      requires Valid(View()) && Complete(p)
      modifies this`size, content, stream, vault
      ensures (View(), vault.View(), status) == Attempt(old(View()), old(vault.View()), load, p)
    {
      hide Streams.PlainText, Streams.WellPadded, Streams.Usable, Streams.Verified, Crc32, Decrypted, Bind;
      var keySize := Streams.KeyLength(cipher);
      var key := p.key[..keySize];
      if load {
        var loaded := vault.Load(crc, keySize);
        if loaded.None? {
          return -ENOENT;
        }
        key := loaded.value;
      } else {
        if p.transform < 0 {
          return p.transform;
        }
      }
      assert key == old(if load then LoadKey(vault.View(), crc, keySize) else Some(p.key[..keySize])).value;
      var prepared := stream.Prepare(cipher, content, size, key);
      if !prepared {
        return -EINVAL;
      }
      var verified := stream.Verify(crc);
      if !verified {
        return -EACCES;
      }
      if !load && p.save {
        vault.Save(crc, key, p.saveWorks);
      }
      DecryptOver(key);
      return 0;
    }

    method AccessContent(cipher: Streams.Cipher, length: nat, crc: word32) returns (status: int)
      requires length <= content.Length
      requires cipher != Streams.XOR ==> 4 <= length
      modifies this`cipher, this`size, this`crc, this`phase
      ensures (View(), status) == Access(cipher, old(content[..]), length, crc)
    {
      hide Crc32, LittleEndian;
      this.cipher, this.crc, this.size := cipher, crc, length;
      if cipher == Streams.XOR {
        var c := CalculateCrc(content, length);
        if c == crc {
          phase := COMPLETE;
          return 0;
        }
      } else {
        var ptSize := LittleEndian(content[length - 4..length]);
        if length > ptSize {
          var c := CalculateCrc(content, ptSize);
          if c == crc {
            size := ptSize;
            phase := COMPLETE;
            return 0;
          }
        }
      }
      phase := INITIALIZE;
      return CONTINUE;
    }

    method HandleStep(p: Provider, w: Wizard, vault: Vault) returns (status: int)
      requires Valid(View()) && Complete(p)
      modifies this`size, this`phase, content, stream, vault
      ensures (View(), vault.View(), status) == Handle(old(View()), old(vault.View()), p, w)
    {
      hide Attempt;
      ghost var c := View();
      match phase {
        case INITIALIZE =>
          AttemptOutcome(c, vault.View(), true, p);
          var s := DecryptContent(true, p, vault);
          if s == 0 {
            phase := COMPLETE;
            return CONTINUE;
          }
          if p.initialize < 0 {
            return p.initialize;
          }
          phase := if p.initialize == 0 then VERIFY else READ;
          return CONTINUE;
        case READ =>
          if w.Incomplete? {
            return CONTINUE;
          }
          if w.Aborted? {
            return -EACCES;
          }
          if w.last {
            phase := COMPLETE;
          }
          return CONTINUE;
        case VERIFY =>
          AttemptOutcome(c, vault.View(), false, p);
          var s := DecryptContent(false, p, vault);
          if s < 0 {
            return s;
          }
          phase := COMPLETE;
          return CONTINUE;
        case COMPLETE =>
          return 0;
      }
    }
  }
}
