/** The event reader (player/src/snd/midi.c) over the double-buffered stream.

  What is read is related to the bytes of the track: as long as no underrun was
  reported, an event takes from the track exactly its delta, its status byte unless
  that is running, and its message, and the message is copied verbatim.
*/
module Midi {
  import opened Bits
  import opened SoundBuffer

  const MAX_MESSAGE: nat := 1024

  // ----- Reading is reading the track -----

  lemma {:induction false} ReadIsTrack(b: Buffer, track: seq<byte>, n: nat)
    requires Inv(b, track) && Read(b, n).2
    ensures Inv(Read(b, n).0, track) && Read(b, n).0.position == b.position + n && |Read(b, n).1| == n
    ensures forall j | 0 <= j < n && b.position + j < |track| :: Read(b, n).1[j] == track[b.position + j]
    decreases n
  {
    hide Inv, ReadByte, Peek;
    if n != 0 {
      ReadKeeps(b, track);
      if b.position < |track| {
        PeekIsTrack(b, track);
      }
      ReadIsTrack(ReadByte(b).0, track, n - 1);
    }
  }

  // The bytes consumed between two positions, where the track has them.
  ghost predicate Consumed(track: seq<byte>, from: nat, to: nat, bytes: seq<byte>) {
    to == from + |bytes| && forall j | 0 <= j < |bytes| && from + j < |track| :: bytes[j] == track[from + j]
  }

  lemma ConsumedMore(track: seq<byte>, from: nat, mid: nat, to: nat, a: seq<byte>, b: seq<byte>)
    requires Consumed(track, from, mid, a) && Consumed(track, mid, to, b)
    ensures Consumed(track, from, to, a + b)
  {
    forall j | 0 <= j < |a + b| && from + j < |track| ensures (a + b)[j] == track[from + j] {
      if |a| <= j {
        assert b[j - |a|] == track[mid + (j - |a|)];
      }
    }
  }

  // ----- Variable-length quantities -----

  // All bytes but the last carry the continuation bit.
  ghost predicate Continued(bytes: seq<byte>) {
    forall i | 0 <= i < |bytes| :: 0x80 <= bytes[i]
  }

  ghost predicate IsVlq(bytes: seq<byte>) {
    1 <= |bytes| <= 4 && Continued(bytes[..|bytes| - 1]) && bytes[|bytes| - 1] < 0x80
  }

  // What reading a quantity consumes: one of up to four bytes, or five bytes of one that is too long.
  ghost predicate IsQuantity(bytes: seq<byte>) {
    IsVlq(bytes) || (|bytes| == 5 && Continued(bytes[..4]))
  }

  // No quantity begins with another one.
  lemma SameQuantity(c: seq<byte>, d: seq<byte>)
    requires IsQuantity(c) && IsVlq(d)
    requires forall j | 0 <= j < |c| && j < |d| :: c[j] == d[j]
    ensures c == d
  {
    // The longer one would go on where the shorter one ends.
    assert |c| == |d|;
  }

  function VlqValue(bytes: seq<byte>): nat {
    if bytes == [] then 0 else VlqValue(bytes[..|bytes| - 1]) * 0x80 + bytes[|bytes| - 1] % 0x80
  }

  // Seven bits of each byte, the first one uppermost.
  lemma QuantityValue(bytes: seq<byte>)
    requires 1 <= |bytes| <= 4
    ensures var digit := (i: nat) requires i < |bytes| => bytes[i] as nat % 128;
      VlqValue(bytes) ==
        match |bytes|
        case 1 => digit(0)
        case 2 => 128 * digit(0) + digit(1)
        case 3 => 16384 * digit(0) + 128 * digit(1) + digit(2)
        case _ => 2097152 * digit(0) + 16384 * digit(1) + 128 * digit(2) + digit(3)
  {
    var n := |bytes|;
    assert bytes[..n - 1][..0] == [];
    if n > 1 {
      QuantityValue(bytes[..n - 1]);
    }
  }

  // The bytes restored from a value: size of them, the last one without the continuation bit.
  function Groups(value: nat, size: nat): (bytes: seq<byte>)
    ensures |bytes| == size
    decreases size
  {
    if size == 0 then [] else Groups(value / 0x80, size - 1) + [0x80 + value % 0x80]
  }

  lemma {:induction false} GroupsOfContinued(bytes: seq<byte>)
    requires Continued(bytes)
    ensures Groups(VlqValue(bytes), |bytes|) == bytes
  {
    if bytes != [] {
      var init := bytes[..|bytes| - 1];
      GroupsOfContinued(init);
      assert bytes == init + [bytes[|bytes| - 1]];
    }
  }

  method RestoreVlq(out: array<byte>, at: nat, value: nat, size: nat)
    requires 1 <= size && at + size <= out.Length
    modifies out
    ensures out[..] == old(out[..at]) + Groups(value, size)[..size - 1] + [value % 0x80] + old(out[at + size..])
  {
    hide Groups;
    ghost var groups := Groups(value, size);
    var v := value;
    var i: int := size - 1;
    assert groups[..size] == groups;
    while i >= 0
      invariant -1 <= i < size
      invariant Groups(v, i + 1) == groups[..i + 1]
      invariant forall k | i < k < size :: out[at + k] == groups[k]
      invariant forall k | 0 <= k < out.Length && !(at <= k < at + size) :: out[k] == old(out[k])
    {
      GroupsStep(v, i);
      assert groups[i] == groups[..i + 1][i] && groups[..i] == groups[..i + 1][..i];
      out[at + i] := 0x80 + v % 0x80;
      v := v / 0x80;
      i := i - 1;
    }
    assert out[at..at + size - 1] == groups[..size - 1];
    out[at + size - 1] := value % 0x80;
    assert out[..] == out[..at] + out[at..at + size - 1] + [out[at + size - 1]] + out[at + size..];
  }

  // A quantity read is restored byte by byte, in its canonical form or not.
  lemma RestoredVlq(bytes: seq<byte>)
    requires IsVlq(bytes)
    ensures Groups(VlqValue(bytes), |bytes|)[..|bytes| - 1] + [VlqValue(bytes) % 0x80] == bytes
  {
    hide *;
    var n, v := |bytes| - 1, VlqValue(bytes);
    VlqStep(bytes);
    GroupsStep(v, n);
    GroupsOfContinued(bytes[..n]);
    assert Groups(v, n + 1)[..n] == Groups(v / 0x80, n);
    assert bytes == bytes[..n] + [bytes[n]];
  }

  lemma VlqStep(bytes: seq<byte>)
    requires IsVlq(bytes)
    ensures bytes != [] && Continued(bytes[..|bytes| - 1])
    ensures VlqValue(bytes) / 0x80 == VlqValue(bytes[..|bytes| - 1])
    ensures VlqValue(bytes) % 0x80 == bytes[|bytes| - 1]
  {
    var high, low := VlqValue(bytes[..|bytes| - 1]), bytes[|bytes| - 1];
    assert VlqValue(bytes) == high * 0x80 + low;
    hide VlqValue;
  }

  lemma GroupsStep(value: nat, n: nat)
    ensures Groups(value, n + 1) == Groups(value / 0x80, n) + [0x80 + value % 0x80]
  {
  }

  // ----- Messages -----

  // The length of the message a status byte announces, unless it is a meta event.
  datatype Kind = Fixed(length: nat) | Meta | SysEx | Unknown

  function KindOf(status: byte): Kind {
    var s := if status < 0xF0 then status - status % 0x10 else status;
    if s in {0xF6, 0xF8, 0xFA, 0xFB, 0xFC, 0xFE} then Fixed(0)
    else if s in {0xC0, 0xD0, 0xF7, 0xF3} then Fixed(1)
    else if s in {0x80, 0x90, 0xA0, 0xB0, 0xE0, 0xF2} then Fixed(2)
    else if s == 0xF0 then SysEx
    else if s == 0xFF then Meta
    else Unknown
  }

  // Program changes and channel pressure carry one byte of data, every other message of a channel two; of the system
  // messages the song position carries two, the song and the end mark one, and those of the clock none.
  lemma MessageLengths(status: byte)
    ensures 0x80 <= status <= 0xBF || 0xE0 <= status <= 0xEF || status == 0xF2 <==> KindOf(status) == Fixed(2)
    ensures 0xC0 <= status <= 0xDF || status == 0xF3 || status == 0xF7 <==> KindOf(status) == Fixed(1)
    ensures status in [0xF6, 0xF8, 0xFA, 0xFB, 0xFC, 0xFE] <==> KindOf(status) == Fixed(0)
    ensures status == 0xF0 <==> KindOf(status) == SysEx
    ensures status == 0xFF <==> KindOf(status) == Meta
    ensures status < 0x80 || status in [0xF1, 0xF4, 0xF5, 0xF9, 0xFD] <==> KindOf(status) == Unknown
  {
    var s := status - status % 0x10;
    assert s == 0x10 * (s / 0x10) && s <= status < s + 0x10;
  }

  // A type byte, a quantity of n bytes and as many bytes of data as it says.
  ghost predicate IsMeta(message: seq<byte>, n: nat) {
    1 + n <= |message| && IsVlq(message[1..1 + n]) && |message| == 1 + n + VlqValue(message[1..1 + n])
  }

  // A message is complete for its kind.
  ghost predicate IsMessage(kind: Kind, message: seq<byte>) {
    match kind
    case Fixed(length) => |message| == length
    case Meta => exists n: nat :: IsMeta(message, n)
    case _ => false
  }

  // The track holds a message that fits the player's buffer.
  ghost predicate MessageAt(track: seq<byte>, at: nat, kind: Kind, m: seq<byte>) {
    IsMessage(kind, m) && |m| <= MAX_MESSAGE && at + |m| <= |track| && track[at..at + |m|] == m
  }

  // The track holds an event: a delta, a status byte unless it is running, and such a message.
  ghost predicate EventAt(track: seq<byte>, at: nat, running: byte, d: seq<byte>, st: seq<byte>, m: seq<byte>) {
    && IsVlq(d) && at + |d| < |track| && track[at..at + |d|] == d
    && (if 0x80 <= track[at + |d|] then st == [track[at + |d|]] else st == [])
    && MessageAt(track, at + |d| + |st|, KindOf(StatusOf(st, running)), m)
  }

  // What reading the status byte consumes: a byte of its own, or none if it is running.
  ghost predicate StatusRead(track: seq<byte>, at: nat, running: byte, status: byte, st: seq<byte>) {
    (st == [status] && 0x80 <= status) || (st == [] && status == running && (at < |track| ==> track[at] < 0x80))
  }

  function StatusOf(st: seq<byte>, running: byte): byte { if st == [] then running else st[0] }

  class MidiReader {
    const buffer: SndBuffer
    const message: array<byte>
    var delta: nat
    var status: byte
    var length: nat

    constructor (buffer: SndBuffer)
      ensures this.buffer == buffer && fresh(message) && message.Length == MAX_MESSAGE
    {
      this.buffer := buffer;
      message := new byte[MAX_MESSAGE](_ => 0);
      delta, status, length := 0, 0, 0;
    }

    // Unless an underrun was reported, the stream is where the track is.
    ghost predicate Follows(track: seq<byte>)
      reads this, buffer, buffer.data
    {
      && message.Length == MAX_MESSAGE && message != buffer.data && buffer.Valid()
      && (!buffer.starved ==> Inv(buffer.View(), track))
    }

    method GetBytes(size: nat, ghost track: seq<byte>) returns (bytes: seq<byte>, ok: bool)
      requires Follows(track)
      modifies buffer
      ensures Follows(track) && buffer.data == old(buffer.data)
      ensures bytes == Read(old(buffer.View()), size).1
      ensures ok ==> |bytes| == size && buffer.starved == old(buffer.starved)
      ensures !ok ==> buffer.starved
      ensures !buffer.starved ==> !old(buffer.starved) && Consumed(track, old(buffer.position), buffer.position, bytes)
      ensures ok ==> |bytes| == size
    {
      hide Inv, Read;
      ghost var b := buffer.View();
      if !buffer.starved && Read(b, size).2 {
        ReadIsTrack(b, track, size);
      }
      ReadSize(b, size);
      bytes, ok := buffer.ReadBytes(size);
    }

    method ReadVlq(ghost track: seq<byte>) returns (value: nat, count: nat, ghost consumed: seq<byte>)
      requires Follows(track)
      modifies buffer
      ensures Follows(track) && buffer.data == old(buffer.data)
      ensures !buffer.starved ==>
        !old(buffer.starved) && Consumed(track, old(buffer.position), buffer.position, consumed)
      ensures !buffer.starved ==>
        if count == 0 then |consumed| == 5 && Continued(consumed[..4])
        else IsVlq(consumed) && |consumed| == count && value == VlqValue(consumed)
      ensures !buffer.starved ==> IsQuantity(consumed)
      ensures count <= 4
    {
      hide Follows, Inv, Consumed;
      NothingConsumed(track, buffer.position);
      value, count, consumed := 0, 0, [];
      while 5 > count
        invariant Follows(track) && buffer.data == old(buffer.data)
        invariant count <= 5 && |consumed| == count && Continued(consumed) && value == VlqValue(consumed)
        invariant !buffer.starved ==>
          !old(buffer.starved) && Consumed(track, old(buffer.position), buffer.position, consumed)
        invariant buffer.starved ==> old(buffer.starved)
      {
        ghost var at, was := buffer.position, consumed;
        var bytes, ok := GetBytes(1, track);
        if !ok {
          return 0, 0, consumed;
        }
        consumed := consumed + bytes;
        assert consumed[..|consumed| - 1] == was;
        if !buffer.starved {
          ConsumedMore(track, old(buffer.position), at, buffer.position, was, bytes);
        }
        count := count + 1;
        value := value * 0x80 + bytes[0] % 0x80;
        if bytes[0] < 0x80 {
          break;
        }
      }
      if 4 < count {
        count := 0;
      }
    }

    // The type byte and the length of a meta event, restored into the message.
    method ReadMetaHead(ghost track: seq<byte>) returns (ok: bool, value: nat, count: nat, ghost head: seq<byte>)
      requires Follows(track)
      modifies buffer, message
      ensures Follows(track) && buffer.data == old(buffer.data)
      ensures ok ==> 1 <= count <= 4 && 1 + count + value <= MAX_MESSAGE
      ensures ok && !buffer.starved ==>
        && !old(buffer.starved)
        && Consumed(track, old(buffer.position), buffer.position, head)
        && |head| == 1 + count && IsVlq(head[1..]) && value == VlqValue(head[1..])
        && message[..1 + count] == head
      // It is refused only if it is too long.
      ensures !buffer.starved ==>
        && !old(buffer.starved) && Consumed(track, old(buffer.position), buffer.position, head)
        && 2 <= |head| && IsQuantity(head[1..])
        && (ok <==> IsVlq(head[1..]) && |head| + VlqValue(head[1..]) <= MAX_MESSAGE)
    {
      hide Inv, VlqValue, Consumed, Groups, Continued, IsVlq, IsQuantity;
      value, count, head := 0, 0, [];
      var first, got := GetBytes(1, track);
      if !got {
        return false, value, count, head;
      }
      message[0] := first[0];
      ghost var mid := buffer.position;
      ghost var quantity;
      value, count, quantity := ReadVlq(track);
      head := first + quantity;
      assert head[1..] == quantity;
      if !buffer.starved {
        NoneOfFive(quantity);
      }
      if count == 0 || MAX_MESSAGE - 1 - count < value {
        if !buffer.starved {
          ConsumedMore(track, old(buffer.position), mid, buffer.position, first, quantity);
        }
        return false, value, count, head;
      }
      RestoreVlq(message, 1, value, count);
      if !buffer.starved {
        RestoredVlq(quantity);
        ConsumedMore(track, old(buffer.position), mid, buffer.position, first, quantity);
        assert head[1..] == quantity;
      }
      return true, value, count, head;
    }

    // The rest of a meta event, from its type byte on.
    method ReadMeta(ghost track: seq<byte>) returns (ok: bool)
      requires Follows(track) && length <= MAX_MESSAGE
      modifies buffer, message, this`length
      ensures Follows(track) && buffer.data == old(buffer.data) && length <= MAX_MESSAGE
      ensures old(buffer.starved) ==> buffer.starved
      ensures ok && !buffer.starved ==>
        && !old(buffer.starved)
        && Consumed(track, old(buffer.position), buffer.position, message[..length])
        && IsMessage(Meta, message[..length])
      ensures !buffer.starved ==> forall m | MessageAt(track, old(buffer.position), Meta, m) ::
        ok && message[..length] == m
    {
      hide Inv, VlqValue, Consumed, IsVlq, IsQuantity, MessageAt;
      var got, value, count;
      ghost var head;
      got, value, count, head := ReadMetaHead(track);
      ghost var start := old(buffer.position);
      if !buffer.starved {
        HeadOfMeta(track, start, buffer.position, head);
      }
      if !got {
        return false;
      }
      length := 1 + count + value;
      ghost var at := buffer.position;
      var data, read := GetBytes(value, track);
      if !read {
        return false;
      }
      CopyTo(1 + count, data);
      if !buffer.starved {
        ConsumedMore(track, old(buffer.position), at, buffer.position, head, data);
        assert message[..length] == head + data;
        assert message[..length][1..1 + count] == head[1..];
        assert IsMeta(message[..length], count);
        ReadsAll(track, start, buffer.position, message[..length]);
      }
      return true;
    }

    method CopyTo(at: nat, bytes: seq<byte>)
      requires at + |bytes| <= message.Length
      modifies message
      ensures message[..at] == old(message[..at]) && message[at..at + |bytes|] == bytes
    {
      for i := 0 to |bytes|
        invariant message[..at] == old(message[..at]) && message[at..at + i] == bytes[..i]
      {
        message[at + i] := bytes[i];
      }
    }

    // A system-exclusive message, up to its end mark; its length is added to the previous one.
    method ReadSysEx(ghost track: seq<byte>) returns (ok: bool)
      requires Follows(track) && length <= MAX_MESSAGE
      modifies buffer, message, this`length
      ensures Follows(track) && buffer.data == old(buffer.data) && length <= MAX_MESSAGE
      ensures old(buffer.starved) ==> buffer.starved
    {
      hide Inv;
      var i := 0;
      var next := buffer.PeekByte();
      while 0xF7 != next
        invariant Follows(track) && buffer.data == old(buffer.data)
        invariant i <= length <= MAX_MESSAGE && (old(buffer.starved) ==> buffer.starved)
        decreases MAX_MESSAGE - length
      {
        if MAX_MESSAGE == length {
          return false;
        }
        var bytes, got := GetBytes(1, track);
        if !got {
          return false;
        }
        message[i] := bytes[0];
        length := length + 1;
        i := i + 1;
        next := buffer.PeekByte();
      }
      return true;
    }

    // The status byte, unless it is running.
    method ReadStatus(ghost track: seq<byte>) returns (ok: bool, st: seq<byte>)
      requires Follows(track)
      modifies buffer, this`status
      ensures Follows(track) && buffer.data == old(buffer.data)
      ensures ok && !buffer.starved ==>
        && !old(buffer.starved) && Consumed(track, old(buffer.position), buffer.position, st)
        && StatusRead(track, old(buffer.position), old(status), status, st)
      ensures !buffer.starved ==> ok
    {
      hide Inv;
      st := [];
      var first := buffer.PeekByte();
      if !buffer.starved && buffer.position < |track| {
        PeekIsTrack(buffer.View(), track);
      }
      if 0x80 > first {
        return true, st;
      }
      ghost var b := buffer.View();
      var bytes, got := GetBytes(1, track);
      if !got {
        return false, st;
      }
      FirstByte(b);
      status := bytes[0];
      return true, bytes;
    }

    // The message after the status byte.
    method ReadMessage(ghost track: seq<byte>) returns (ok: bool)
      requires Follows(track) && length <= MAX_MESSAGE
      modifies buffer, message, this`length
      ensures Follows(track) && buffer.data == old(buffer.data) && length <= MAX_MESSAGE
      ensures old(buffer.starved) ==> buffer.starved
      ensures ok && !buffer.starved && KindOf(status) != SysEx ==>
        && !old(buffer.starved)
        && Consumed(track, old(buffer.position), buffer.position, message[..length])
        && IsMessage(KindOf(status), message[..length])
      // A message that is in the track is read.
      ensures !buffer.starved ==> forall m | MessageAt(track, old(buffer.position), KindOf(status), m) ::
        ok && message[..length] == m
    {
      hide Inv, IsMeta, MessageAt;
      MessageKinds(track, buffer.position);
      match KindOf(status) {
        case Fixed(n) =>
          length := n;
          var bytes, got := GetBytes(n, track);
          if !got {
            return false;
          }
          CopyTo(0, bytes);
          assert message[..n] == message[0..0 + |bytes|];
          if !buffer.starved {
            ReadsAll(track, old(buffer.position), buffer.position, bytes);
          }
          return true;
        case SysEx =>
          ok := ReadSysEx(track);
        case Meta =>
          ok := ReadMeta(track);
        case Unknown =>
          return false;
      }
    }

    // The delta, and the status byte unless it is running.
    method ReadHead(ghost track: seq<byte>) returns (ok: bool, size: nat, ghost d: seq<byte>, ghost st: seq<byte>)
      requires Follows(track) && length <= MAX_MESSAGE
      modifies this`delta, this`status, buffer
      ensures Follows(track) && buffer.data == old(buffer.data)
      ensures old(buffer.starved) ==> buffer.starved
      ensures !buffer.starved ==>
        && ok && size == (if IsVlq(d) then |d| else 0) + |st|
        && Consumed(track, old(buffer.position), old(buffer.position) + |d|, d)
        && Consumed(track, old(buffer.position) + |d|, buffer.position, st)
        && IsQuantity(d) && delta == (if IsVlq(d) then VlqValue(d) else old(delta))
        && StatusRead(track, old(buffer.position) + |d|, old(status), status, st)
    {
      hide Inv, VlqValue, Consumed, Continued;
      var value, count;
      value, count, d := ReadVlq(track);
      if count != 0 {
        delta := value;
      }
      ghost var mid := buffer.position;
      var read;
      ok, read := ReadStatus(track);
      st := read;
      size := count + |read|;
      if !buffer.starved {
        NoneOfFive(d);
        Lengths(track, old(buffer.position), mid, d);
      }
    }

    // The result is 0 if no event could be read. d and st are the delta and the status byte read.
    method ReadEvent(ghost track: seq<byte>) returns (size: nat, ghost d: seq<byte>, ghost st: seq<byte>)
      requires Follows(track) && length <= MAX_MESSAGE
      modifies this, buffer, message
      ensures Follows(track) && buffer.data == old(buffer.data) && length <= MAX_MESSAGE
      ensures size != 0 && !buffer.starved && KindOf(status) != SysEx ==>
        && !old(buffer.starved)
        && IsQuantity(d) && delta == (if IsVlq(d) then VlqValue(d) else old(delta))
        && StatusRead(track, old(buffer.position) + |d|, old(status), status, st)
        && IsMessage(KindOf(status), message[..length])
        && Consumed(track, old(buffer.position), buffer.position, d + st + message[..length])
      // An event that is in the track is read, whatever it is.
      ensures !buffer.starved ==> forall d', st', m | EventAt(track, old(buffer.position), old(status), d', st', m) ::
        && d == d' && st == st' && message[..length] == m && delta == VlqValue(d')
        && status == StatusOf(st', old(status))
        && size == |d'| + |st'| + |m| + if KindOf(status) == Meta then 1 else 0
    {
      hide Inv, VlqValue, IsMessage, KindOf, MessageAt, IsVlq, IsQuantity, Consumed, EventAt, StatusRead;
      ghost var start := buffer.position;
      var ok;
      ok, size, d, st := ReadHead(track);
      if !ok {
        return 0, d, st;
      }
      ghost var at := buffer.position;
      ok := ReadMessage(track);
      if !buffer.starved {
        EventBegins(track, start, at, old(status), status, d, st);
      }
      if !ok {
        return 0, d, st;
      }
      if !buffer.starved && KindOf(status) != SysEx {
        ConsumedMore(track, start, start + |d|, at, d, st);
        ConsumedMore(track, start, at, buffer.position, d + st, message[..length]);
      }
      // The type byte of a meta event counts once more.
      size := size + length + if KindOf(status) == Meta then 1 else 0;
    }
  }

  // If the track holds a meta event, its head is the one read, and it is not refused.
  lemma HeadOfMeta(track: seq<byte>, from: nat, to: nat, head: seq<byte>)
    requires Consumed(track, from, to, head) && 2 <= |head| && IsQuantity(head[1..])
    ensures forall m | MessageAt(track, from, Meta, m) ::
      IsVlq(head[1..]) && |m| == |head| + VlqValue(head[1..]) <= MAX_MESSAGE
  {
    hide VlqValue;
    forall m | MessageAt(track, from, Meta, m)
      ensures IsVlq(head[1..]) && |m| == |head| + VlqValue(head[1..]) <= MAX_MESSAGE
    {
      var n: nat :| IsMeta(m, n);
      var q := m[1..1 + n];
      assert forall j | 0 <= j < |m| :: m[j] == track[from..from + |m|][j] == track[from + j];
      forall j | 0 <= j < |head[1..]| && j < |q| ensures head[1..][j] == q[j] {
        assert head[1 + j] == track[from + (1 + j)] && m[1 + j] == track[from + (1 + j)];
      }
      SameQuantity(head[1..], q);
    }
  }

  // What was read over the length of a message of the track is that message.
  lemma ReadsAll(track: seq<byte>, from: nat, to: nat, bytes: seq<byte>)
    requires Consumed(track, from, to, bytes)
    ensures forall kind, m | MessageAt(track, from, kind, m) && |m| == |bytes| :: bytes == m
  {
    hide IsMessage;
    forall kind, m | MessageAt(track, from, kind, m) && |m| == |bytes| ensures bytes == m {
      assert forall j | 0 <= j < |m| :: m[j] == track[from..from + |m|][j] == track[from + j];
    }
  }

  // If the track holds an event, its delta and its status byte are the ones read.
  lemma EventBegins(track: seq<byte>, from: nat, to: nat, running: byte, status: byte, d: seq<byte>, st: seq<byte>)
    requires Consumed(track, from, from + |d|, d) && Consumed(track, from + |d|, to, st) && IsQuantity(d)
    requires StatusRead(track, from + |d|, running, status, st)
    ensures forall d', st', m | EventAt(track, from, running, d', st', m) ::
      d == d' && IsVlq(d) && st == st' && status == StatusOf(st, running) && MessageAt(track, to, KindOf(status), m)
  {
    hide MessageAt, VlqValue;
    forall d', st', m | EventAt(track, from, running, d', st', m)
      ensures d == d' && IsVlq(d) && st == st' && status == StatusOf(st, running)
      ensures MessageAt(track, to, KindOf(status), m)
    {
      assert forall j | 0 <= j < |d'| :: d'[j] == track[from..from + |d'|][j] == track[from + j];
      SameQuantity(d, d');
      if st != [] {
        assert st[0] == track[from + |d| + 0];
      }
    }
  }

  lemma NothingConsumed(track: seq<byte>, at: nat)
    ensures Consumed(track, at, at, [])
  {
  }

  lemma Lengths(track: seq<byte>, from: nat, to: nat, bytes: seq<byte>)
    requires Consumed(track, from, to, bytes)
    ensures to == from + |bytes|
  {
  }

  lemma MessageKinds(track: seq<byte>, at: nat)
    ensures forall kind: Kind, m | MessageAt(track, at, kind, m) ::
      (kind.Fixed? && |m| == kind.length) || kind.Meta?
  {
    hide IsMeta;
  }

  lemma NoneOfFive(bytes: seq<byte>)
    ensures |bytes| == 5 ==> !IsVlq(bytes)
    ensures IsQuantity(bytes) ==> bytes != []
  {
  }

  lemma FirstByte(b: Buffer)
    ensures |Read(b, 1).1| == 1 && Read(b, 1).1[0] == Peek(b)
  {
    assert Read(ReadByte(b).0, 0).1 == [];
  }

  lemma {:induction false} ReadSize(b: Buffer, n: nat)
    ensures Read(b, n).2 ==> |Read(b, n).1| == n
    decreases n
  {
    if n != 0 {
      ReadSize(ReadByte(b).0, n - 1);
    }
  }
}
