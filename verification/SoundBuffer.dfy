/** The double-buffered music stream (player/src/snd/buf.c and the feeder of seq.c).

  A buffer holds two packets of the track. Whenever the reader enters a new packet it
  requests the next one, and the feeder, called at any time in between, overwrites the
  packet already played. The functions describe single steps; the theorems are about
  every interleaving of reading and feeding.
*/
module SoundBuffer {
  import opened Bits

  const SIZE: nat := 4096
  const PACKET: nat := 2048

  type Data = d: seq<byte> | |d| == SIZE witness seq(SIZE, _ => 0)

  // What a failed read leaves in the packet it was to fill.
  type Garbage = d: seq<byte> | |d| == PACKET witness seq(PACKET, _ => 0)

  datatype Buffer = Buffer(position: nat, data: Data, requested: bool, acknowledged: bool, noMore: bool)

  // ----- Reading -----

  // False on an underrun.
  function RequestPacket(b: Buffer): (Buffer, bool) {
    if b.noMore then (b, true)
    else if b.requested && !b.acknowledged then (b, false)
    else (b.(acknowledged := false, requested := true), true)
  }

  function Peek(b: Buffer): byte { b.data[b.position % SIZE] }

  predicate Crosses(position: nat) { (position + 1) % PACKET == 0 }

  function ReadByte(b: Buffer): (Buffer, bool) {
    var b' := b.(position := b.position + 1);
    if Crosses(b.position) then RequestPacket(b') else (b', true)
  }

  // The bytes delivered by a read, the one at which it stopped included.
  function Read(b: Buffer, n: nat): (Buffer, seq<byte>, bool)
    decreases n
  {
    if n == 0 then (b, [], true)
    else
      var (b1, ok) := ReadByte(b);
      if !ok then (b1, [Peek(b)], false)
      else
        var (b2, rest, ok2) := Read(b1, n - 1);
        (b2, [Peek(b)] + rest, ok2)
  }

  // ----- Feeding -----

  function NextStart(position: nat): nat { PACKET * (position / PACKET + 1) }

  function NextOffset(position: nat): nat { PACKET * (1 - position % SIZE / PACKET) }

  function Put(data: Data, offset: nat, bytes: seq<byte>): Data
    requires offset + |bytes| <= SIZE
  {
    data[..offset] + bytes + data[offset + |bytes|..]
  }

  function Feed(b: Buffer, track: seq<byte>, ok: bool, garbage: Garbage): (Buffer, bool) {
    if !b.requested || b.acknowledged || b.noMore then (b, true)
    else
      var start := NextStart(b.position);
      if |track| < start then (b.(noMore := true), true)
      else
        var end := if |track| < start + PACKET then |track| else start + PACKET;
        if ok then (b.(data := Put(b.data, NextOffset(b.position), track[start..end]), acknowledged := true), true)
        else (b.(data := Put(b.data, NextOffset(b.position), garbage)), false)
  }

  // The buffer when the sequence starts: the first two packets as far as the track goes.
  ghost predicate Started(b: Buffer, track: seq<byte>) {
    && b.position == 0 && !b.requested && !b.acknowledged && !b.noMore
    && forall p | 0 <= p < SIZE && p < |track| :: b.data[p] == track[p]
  }

  // ----- The invariant -----

  // The bytes of packet k that belong to the track are in the buffer.
  ghost predicate Holds(data: Data, track: seq<byte>, k: nat) {
    forall p | k * PACKET <= p < (k + 1) * PACKET && p < |track| :: data[p % SIZE] == track[p]
  }

  ghost predicate Inv(b: Buffer, track: seq<byte>) {
    var k := b.position / PACKET;
    && Holds(b.data, track, k)
    && (!b.requested ==> k == 0 && !b.acknowledged && !b.noMore)
    && (!b.requested || b.acknowledged ==> Holds(b.data, track, k + 1))
    && (b.noMore ==> |track| < NextStart(b.position))
  }

  lemma StartHolds(b: Buffer, track: seq<byte>)
    requires Started(b, track)
    ensures Inv(b, track)
  {
  }

  lemma PeekIsTrack(b: Buffer, track: seq<byte>)
    requires Inv(b, track) && b.position < |track|
    ensures Peek(b) == track[b.position]
  {
  }

  lemma ReadKeeps(b: Buffer, track: seq<byte>)
    requires Inv(b, track)
    ensures ReadByte(b).1 ==> Inv(ReadByte(b).0, track)
    ensures ReadByte(b).0.position == b.position + 1 && ReadByte(b).0.data == b.data
  {
    var k := b.position / PACKET;
    if Crosses(b.position) {
      assert (b.position + 1) / PACKET == k + 1;
    } else {
      assert (b.position + 1) / PACKET == k;
    }
  }

  // The packet fed is the half not being read.
  lemma PutKeeps(b: Buffer, track: seq<byte>, bytes: seq<byte>)
    requires |bytes| <= PACKET && Holds(b.data, track, b.position / PACKET)
    ensures NextOffset(b.position) + |bytes| <= SIZE
    ensures Holds(Put(b.data, NextOffset(b.position), bytes), track, b.position / PACKET)
  {
    var k := b.position / PACKET;
    var data := Put(b.data, NextOffset(b.position), bytes);
    NextFits(b.position);
    forall p | k * PACKET <= p < (k + 1) * PACKET && p < |track| ensures data[p % SIZE] == track[p] {
      OtherHalf(b.position, p);
      PutElsewhere(b.data, NextOffset(b.position), bytes, p % SIZE);
      assert b.data[p % SIZE] == track[p];
    }
  }

  lemma OtherHalf(position: nat, p: nat)
    requires position / PACKET * PACKET <= p < (position / PACKET + 1) * PACKET
    ensures p % SIZE < NextOffset(position) || NextOffset(position) + PACKET <= p % SIZE
  {
    assert p / PACKET == position / PACKET;
  }

  lemma PutElsewhere(data: Data, offset: nat, bytes: seq<byte>, i: nat)
    requires offset + |bytes| <= SIZE && i < SIZE && (i < offset || offset + |bytes| <= i)
    ensures Put(data, offset, bytes)[i] == data[i]
  {
  }

  lemma PutHolds(b: Buffer, track: seq<byte>, end: nat)
    requires NextStart(b.position) <= end <= |track|
    requires end == |track| || end == NextStart(b.position) + PACKET
    requires end <= NextStart(b.position) + PACKET
    ensures NextOffset(b.position) + (end - NextStart(b.position)) <= SIZE
    ensures Holds(Put(b.data, NextOffset(b.position), track[NextStart(b.position)..end]), track,
                  b.position / PACKET + 1)
  {
    var k := b.position / PACKET;
    var start, offset := NextStart(b.position), NextOffset(b.position);
    NextFits(b.position);
    var data := Put(b.data, offset, track[start..end]);
    forall p | (k + 1) * PACKET <= p < (k + 2) * PACKET && p < |track| ensures data[p % SIZE] == track[p] {
      NextIndex(b.position, p);
      PutAt(b.data, offset, track[start..end], p - start);
    }
  }

  lemma NextFits(position: nat)
    ensures NextOffset(position) + PACKET <= SIZE
  {
  }

  lemma NextIndex(position: nat, p: nat)
    requires NextStart(position) <= p < NextStart(position) + PACKET
    ensures p % SIZE == NextOffset(position) + (p - NextStart(position))
  {
  }

  lemma PutAt(data: Data, offset: nat, bytes: seq<byte>, i: nat)
    requires offset + |bytes| <= SIZE && i < |bytes|
    ensures Put(data, offset, bytes)[offset + i] == bytes[i]
  {
  }

  lemma FeedKeeps(b: Buffer, track: seq<byte>, ok: bool, garbage: Garbage)
    requires Inv(b, track)
    ensures Inv(Feed(b, track, ok, garbage).0, track)
    ensures Feed(b, track, ok, garbage).0.position == b.position
  {
    if b.requested && !b.acknowledged && !b.noMore && NextStart(b.position) <= |track| {
      var start := NextStart(b.position);
      var end := if |track| < start + PACKET then |track| else start + PACKET;
      PutKeeps(b, track, track[start..end]);
      PutKeeps(b, track, garbage);
      PutHolds(b, track, end);
    }
  }

  // ----- Every interleaving -----

  datatype Event = GetByte | FeedPacket(ok: bool, garbage: Garbage)

  function Step(b: Buffer, track: seq<byte>, e: Event): (Buffer, bool) {
    if e.GetByte? then ReadByte(b) else (Feed(b, track, e.ok, e.garbage).0, true)
  }

  // The buffer after the first n events.
  function After(b: Buffer, track: seq<byte>, events: seq<Event>, n: nat): Buffer
    requires n <= |events|
  {
    if n == 0 then b else Step(After(b, track, events, n - 1), track, events[n - 1]).0
  }

  predicate Underrun(b: Buffer, track: seq<byte>, events: seq<Event>, i: nat)
    requires i < |events|
  {
    !Step(After(b, track, events, i), track, events[i]).1
  }

  lemma {:induction false} EveryStateHolds(b: Buffer, track: seq<byte>, events: seq<Event>, n: nat)
    requires Started(b, track) && n <= |events|
    requires forall i | 0 <= i < n :: !Underrun(b, track, events, i)
    ensures Inv(After(b, track, events, n), track)
  {
    hide Inv, ReadByte, Feed;
    if n == 0 {
      StartHolds(b, track);
    } else {
      EveryStateHolds(b, track, events, n - 1);
      var c := After(b, track, events, n - 1);
      assert !Underrun(b, track, events, n - 1);
      ReadKeeps(c, track);
      if events[n - 1].FeedPacket? {
        FeedKeeps(c, track, events[n - 1].ok, events[n - 1].garbage);
      }
    }
  }

  function Reads(events: seq<Event>, n: nat): nat
    requires n <= |events|
  {
    if n == 0 then 0 else Reads(events, n - 1) + if events[n - 1].GetByte? then 1 else 0
  }

  lemma {:induction false} PositionCounts(b: Buffer, track: seq<byte>, events: seq<Event>, n: nat)
    requires n <= |events|
    ensures After(b, track, events, n).position == b.position + Reads(events, n)
  {
    if n != 0 {
      PositionCounts(b, track, events, n - 1);
    }
  }

  // However reading and feeding interleave, until the first underrun is reported the
  // byte read or peeked next is the next byte of the track.
  lemma EveryByteIsTrack(b: Buffer, track: seq<byte>, events: seq<Event>, n: nat)
    requires Started(b, track) && n <= |events|
    requires forall i | 0 <= i < n :: !Underrun(b, track, events, i)
    requires Reads(events, n) < |track|
    ensures Peek(After(b, track, events, n)) == track[Reads(events, n)]
  {
    hide After, Inv, Peek;
    EveryStateHolds(b, track, events, n);
    PositionCounts(b, track, events, n);
    PeekIsTrack(After(b, track, events, n), track);
  }

  // ----- When underruns happen -----

  predicate CrossingAt(events: seq<Event>, i: nat)
    requires i < |events|
  {
    events[i].GetByte? && Crosses(Reads(events, i))
  }

  // The reader entered a new packet before event n.
  predicate AnyCrossing(events: seq<Event>, n: nat)
    requires n <= |events|
  {
    n != 0 && (AnyCrossing(events, n - 1) || CrossingAt(events, n - 1))
  }

  // A feeding succeeded since the reader last entered a new packet.
  predicate FedSince(events: seq<Event>, n: nat)
    requires n <= |events|
  {
    n != 0 && !CrossingAt(events, n - 1)
    && (FedSince(events, n - 1) || (events[n - 1].FeedPacket? && events[n - 1].ok))
  }

  // A feeding found the whole track already played or in the buffer.
  predicate EndSeen(events: seq<Event>, length: nat, n: nat)
    requires n <= |events|
  {
    n != 0
    && (EndSeen(events, length, n - 1)
        || (events[n - 1].FeedPacket? && AnyCrossing(events, n - 1) && length < NextStart(Reads(events, n - 1))))
  }

  lemma {:induction false} FlagsMean(b: Buffer, track: seq<byte>, events: seq<Event>, n: nat)
    requires Started(b, track) && n <= |events|
    requires forall i | 0 <= i < n :: !Underrun(b, track, events, i)
    ensures var c := After(b, track, events, n);
      && c.position == Reads(events, n)
      && c.requested == AnyCrossing(events, n)
      && c.noMore == EndSeen(events, |track|, n)
      && (c.noMore ==> c.requested)
      && (c.requested && !c.noMore ==> c.acknowledged == FedSince(events, n))
      && (c.acknowledged && !c.noMore ==> NextStart(c.position) <= |track|)
  {
    hide ReadByte, Feed, Reads, NextStart;
    PositionCounts(b, track, events, n);
    if n != 0 {
      FlagsMean(b, track, events, n - 1);
      assert !Underrun(b, track, events, n - 1);
      var c, e := After(b, track, events, n - 1), events[n - 1];
      if e.GetByte? {
        ReadFlags(c, |track|);
      } else {
        FeedFlags(c, track, e.ok, e.garbage);
      }
    }
  }

  lemma ReadFlags(c: Buffer, length: nat)
    ensures var (d, ok) := ReadByte(c);
      ok ==>
        && d.noMore == c.noMore
        && d.requested == (c.requested || (Crosses(c.position) && !c.noMore))
        && (!c.noMore ==> d.acknowledged == (c.acknowledged && !Crosses(c.position)))
        && (c.acknowledged && !Crosses(c.position) && NextStart(c.position) <= length ==>
              NextStart(d.position) <= length)
  {
  }

  lemma FeedFlags(c: Buffer, track: seq<byte>, ok: bool, garbage: Garbage)
    ensures var (d, _) := Feed(c, track, ok, garbage);
      && d.position == c.position && d.requested == c.requested
      && d.noMore == (c.noMore || (c.requested && !c.acknowledged && |track| < NextStart(c.position)))
      && (c.requested && !d.noMore ==> d.acknowledged == (c.acknowledged || ok))
      && (d.acknowledged && !d.noMore ==> c.acknowledged || NextStart(c.position) <= |track|)
      && (!c.requested ==> d == c)
  {
    hide Put;
  }

  // After a run without underruns, the next event is one exactly if it takes the reader
  // into a new packet, not the first time, with no feeding since the last time that
  // succeeded and none at all that had found the end of the track.
  lemma UnderrunExactly(b: Buffer, track: seq<byte>, events: seq<Event>, n: nat)
    requires Started(b, track) && n < |events|
    requires forall i | 0 <= i < n :: !Underrun(b, track, events, i)
    ensures Underrun(b, track, events, n) <==>
      && CrossingAt(events, n) && AnyCrossing(events, n)
      && !FedSince(events, n) && !EndSeen(events, |track|, n)
  {
    hide After;
    FlagsMean(b, track, events, n);
  }

  ghost predicate Paced(events: seq<Event>, length: nat, n: nat)
    requires n <= |events|
  {
    forall i | 0 <= i < n && CrossingAt(events, i) && AnyCrossing(events, i) ::
      FedSince(events, i) || EndSeen(events, length, i)
  }

  // Feeding once per packet is enough, and needed, to never report an underrun.
  lemma {:induction false} PacedExactly(b: Buffer, track: seq<byte>, events: seq<Event>, n: nat)
    requires Started(b, track) && n <= |events|
    ensures Paced(events, |track|, n) <==> forall i | 0 <= i < n :: !Underrun(b, track, events, i)
  {
    hide Underrun, AnyCrossing, FedSince, EndSeen;
    if n != 0 {
      PacedExactly(b, track, events, n - 1);
      if Paced(events, |track|, n - 1) {
        UnderrunExactly(b, track, events, n - 1);
      }
    }
  }

  // ----- The objects -----

  class SndBuffer {
    var position: nat
    var data: array<byte>
    var requested: bool
    var acknowledged: bool
    var noMore: bool

    // A read was told that its packet was not there.
    ghost var starved: bool

    ghost predicate Valid()
      reads this
    {
      data.Length == SIZE
    }

    ghost function View(): Buffer
      reads this, data
      requires Valid()
    {
      Buffer(position, data[..], requested, acknowledged, noMore)
    }

    // Allocation and first fill; whatever lies past the end of a short track follows it.
    constructor (track: seq<byte>, beyond: Data)
      ensures Valid() && Started(View(), track) && !starved && fresh(data)
    {
      position, requested, acknowledged, noMore, starved := 0, false, false, false, false;
      data := new byte[SIZE](i requires 0 <= i < SIZE => if i < |track| then track[i] else beyond[i]);
    }

    method Request() returns (ok: bool)
      requires Valid()
      modifies this`requested, this`acknowledged
      ensures (View(), ok) == RequestPacket(old(View()))
    {
      if noMore {
        return true;
      }
      if requested && !acknowledged {
        return false;
      }
      acknowledged := false;
      requested := true;
      return true;
    }

    // One turn of the reading loop, at the offset in the buffer.
    method ReadOne(at: nat) returns (b: byte, next: nat, ok: bool)
      requires Valid() && at == position % SIZE
      modifies this`position, this`requested, this`acknowledged
      ensures (View(), ok) == ReadByte(old(View())) && b == Peek(old(View()))
      ensures next == position % SIZE || (!ok && next == SIZE)
    {
      b := data[at];
      next := at + 1;
      position := position + 1;
      ok := true;
      if PACKET == next {
        ok := Request();
        if !ok {
          return;
        }
      }
      if SIZE == next {
        next := 0;
        ok := Request();
      }
    }

    method ReadBytes(size: nat) returns (bytes: seq<byte>, ok: bool)
      requires Valid()
      modifies this`position, this`requested, this`acknowledged, this`starved
      ensures (View(), bytes, ok) == Read(old(View()), size)
      ensures starved == (old(starved) || !ok)
    {
      hide ReadByte, Peek;
      var at := position % SIZE;
      bytes := [];
      ghost var b := View();
      assert [] + Read(b, size).1 == Read(b, size).1;
      var i := 0;
      while i < size
        invariant i <= size && |bytes| == i && at == position % SIZE
        invariant var rest := Read(View(), size - i); Read(b, size) == (rest.0, bytes + rest.1, rest.2)
        invariant data[..] == old(data[..]) && noMore == old(noMore) && starved == old(starved)
      {
        var next, more;
        next, at, more := ReadOne(at);
        ghost var was := bytes;
        bytes := bytes + [next];
        if !more {
          starved := true;
          return bytes, false;
        }
        i := i + 1;
        assert was + ([next] + Read(View(), size - i).1) == bytes + Read(View(), size - i).1;
      }
      ok := true;
      assert bytes + [] == bytes;
    }

    method PeekByte() returns (b: byte)
      requires Valid()
      ensures b == Peek(View())
    {
      return data[position % SIZE];
    }

    // The feeder; ok and garbage are what reading the asset comes to.
    method FeedNext(track: seq<byte>, ok: bool, garbage: Garbage) returns (success: bool)
      requires Valid()
      modifies this`acknowledged, this`noMore, data
      ensures (View(), success) == Feed(old(View()), track, ok, garbage)
    {
      if !requested || acknowledged || noMore {
        return true;
      }
      var start := NextStart(position);
      var size := PACKET;
      if |track| < start + PACKET {
        if |track| < start {
          noMore := true;
          return true;
        }
        size := |track| - start;
      }
      Fill(NextOffset(position), if ok then track[start..start + size] else garbage);
      if !ok {
        return false;
      }
      acknowledged := true;
      return true;
    }

    method Fill(offset: nat, bytes: seq<byte>)
      requires Valid() && offset + |bytes| <= SIZE
      modifies data
      ensures data[..] == Put(old(data[..]), offset, bytes)
    {
      for i := 0 to |bytes|
        invariant data[..] == old(data[..offset]) + bytes[..i] + old(data[offset + i..])
      {
        data[offset + i] := bytes[i];
      }
    }
  }
}
