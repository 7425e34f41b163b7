/** The extended-memory asset cache (player/src/pal/dos/p-cache.c, with CONFIG_XMS).

  Sixteen slots describe blocks of an external allocator that hold parts of files. A
  client pins a part and gets a handle; a part not pinned any more ages until its
  block is evicted. The ghost fields record what the clients hold; the invariant ties
  slots, allocator and ledger together.
*/
module Cache {
  import opened Bits
  import opened Bytes

  const MAX_ITEMS: nat := 16
  const AGE_MIN: int := -0x8000
  const LOCKS_MAX: int := 0x7FFF
  const SIZE_MAX: nat := 0xFFFF
  const ITEM_MAX: nat := 0xFC00
  const SECTOR: nat := 512
  const MOVE_MAX: nat := 0x7FFE
  const EIO: nat := 5
  const EBADF: nat := 9
  const ENOMEM: nat := 12
  const EFAULT: nat := 14

  // A negative lock counter is an age.
  datatype Item = Item(fd: int, base: nat, size: nat, handle: nat, locks: int)

  datatype Part = Part(fd: int, base: nat, size: nat)

  function PartOf(item: Item): Part { Part(item.fd, item.base, item.size) }

  function Kilobytes(length: nat): nat { (length + 1023) / 1024 }

  // Blocks are kilobyte-aligned.
  function Rounded(size: nat): nat { if ITEM_MAX < size then SIZE_MAX else Kilobytes(size) * 1024 }

  // Moves are rounded up to words.
  function Even(n: nat): nat { n + n % 2 }

  // The driver moves what ends inside of a block. The rounding is done with a sign in 16 bits, so that longer moves
  // come out as longer than any block.
  predicate Moved(at: nat, n: nat, block: nat) { n <= MOVE_MAX && at + Even(n) <= block }

  // ----- The allocator -----

  // The driver hands out any handle that is not in use, with a block of any contents, or
  // refuses; callers know no more than the contracts say.
  class Xms {
    var blocks: map<nat, seq<byte>>
    // errno of the C library: the driver sets it at every call, and clears it when the call succeeds.
    var errno: int
    // How often the driver refused an allocation, and what the block it granted last held at first.
    ghost var refusals: nat
    ghost var granted: seq<byte>

    constructor ()
      ensures blocks == map[] && refusals == 0
    {
      blocks, refusals := map[], 0;
    }

    method Alloc(kilobytes: nat) returns (handle: nat)
      modifies this
      ensures handle == 0 ==> blocks == old(blocks) && refusals == old(refusals) + 1
      ensures handle != 0 ==>
        && refusals == old(refusals) && errno == 0
        && handle !in old(blocks) && |granted| == kilobytes * 1024 && blocks == old(blocks)[handle := granted]
    {
      if * {
        refusals, errno := refusals + 1, ENOMEM;
        return 0;
      }
      UnusedHandle(blocks.Keys);
      handle :| 0 < handle && handle !in blocks.Keys;
      var block := seq(kilobytes * 1024, _ => 0);
      blocks, errno, granted := blocks[handle := block], 0, block;
    }

    method Free(handle: nat) returns (freed: bool)
      modifies this`blocks, this`errno
      ensures freed == (handle in old(blocks)) == (errno == 0)
      ensures blocks == old(blocks) - {handle}
    {
      freed := handle in blocks;
      blocks, errno := blocks - {handle}, if freed then 0 else EBADF;
    }

    // The driver moves an even number of bytes, and refuses a move that does not end inside of the block. What is
    // behind the last of an odd number of bytes is stored as well.
    method Store(handle: nat, offset: nat, bytes: seq<byte>) returns (stored: bool)
      requires handle in blocks
      modifies this`blocks, this`errno
      ensures stored <==> Moved(offset, |bytes|, |old(blocks)[handle]|)
      ensures !stored ==> blocks == old(blocks) && errno != 0
      ensures stored ==>
        && errno == 0 && handle in blocks && blocks == old(blocks)[handle := blocks[handle]]
        && |blocks[handle]| == |old(blocks)[handle]|
        && blocks[handle][..offset + |bytes|] == old(blocks)[handle][..offset] + bytes
        && blocks[handle][offset + Even(|bytes|)..] == old(blocks)[handle][offset + Even(|bytes|)..]
    {
      var block := blocks[handle];
      if !Moved(offset, |bytes|, |block|) {
        errno := EFAULT;
        return false;
      }
      var behind: byte := *;
      var moved := if |bytes| % 2 == 0 then bytes else bytes + [behind];
      var now := block[..offset] + moved + block[offset + |moved|..];
      assert now[..offset + |bytes|] == block[..offset] + bytes;
      blocks, errno := blocks[handle := now], 0;
      return true;
    }

    method Load(handle: nat, offset: nat, length: nat) returns (bytes: seq<byte>, loaded: bool)
      requires handle in blocks && offset + length <= |blocks[handle]|
      modifies this`errno
      ensures loaded <==> Moved(offset, length, |blocks[handle]|)
      ensures if loaded then errno == 0 && bytes == blocks[handle][offset..offset + length] else errno != 0
    {
      if !Moved(offset, length, |blocks[handle]|) {
        errno := EFAULT;
        return [], false;
      }
      errno := 0;
      return blocks[handle][offset..offset + length], true;
    }
  }

  lemma UnusedHandle(used: set<nat>)
    ensures exists h: nat :: 0 < h && h !in used
  {
    var bound := Above(used);
    assert 0 < bound && bound !in used;
  }

  lemma Above(used: set<nat>) returns (bound: nat)
    ensures 0 < bound && forall h | h in used :: h < bound
  {
    if used == {} {
      bound := 1;
    } else {
      var h :| h in used;
      bound := Above(used - {h});
      assert forall g | g in used :: g == h || g in used - {h};
      bound := if bound <= h then h + 1 else bound;
    }
  }

  // ----- What the loops over the slots compute -----

  // The handle of the first live slot for a part, or 0.
  function Find(slots: seq<Item>, part: Part): nat {
    if slots == [] then 0
    else if PartOf(slots[0]) == part && slots[0].handle != 0 then slots[0].handle
    else Find(slots[1..], part)
  }

  function Aged(item: Item): Item {
    if item.handle != 0 && AGE_MIN < item.locks <= 0 then item.(locks := item.locks - 1) else item
  }

  predicate Evictable(item: Item, length: nat) {
    item.handle != 0 && item.locks <= 0 && length <= Rounded(item.size)
  }

  // Older, or as old and smaller.
  predicate Better(a: Item, b: Item) {
    a.locks < b.locks || (a.locks == b.locks && Rounded(a.size) < Rounded(b.size))
  }

  // The slot to evict: the best one, the first of them if there are several.
  ghost predicate Victim(slots: seq<Item>, length: nat, i: nat) {
    && i < |slots| && Evictable(slots[i], length)
    && (forall j | 0 <= j < |slots| && Evictable(slots[j], length) :: !Better(slots[j], slots[i]))
    && (forall j | 0 <= j < i && Evictable(slots[j], length) :: Better(slots[i], slots[j]))
  }

  // The table after the victim, large enough for a length, was dropped.
  ghost predicate Dropped(slots: seq<Item>, t: seq<Item>, length: nat) {
    exists i: nat :: Victim(slots, length, i) && t == slots[i := slots[i].(handle := 0)]
  }

  // An allocation: granted at once; or refused, and then either nothing could be evicted or one block was
  // and the driver was asked once more.
  ghost predicate Allocation(slots: seq<Item>, t: seq<Item>, length: nat, refused: nat, granted: bool) {
    if refused == 0 then granted && t == slots
    else if refused == 1 && !granted then t == slots && forall i | 0 <= i < |slots| :: !Evictable(slots[i], length)
    else (refused == if granted then 1 else 2) && Dropped(slots, t, length)
  }

  function AllAged(slots: seq<Item>): (t: seq<Item>)
    ensures |t| == |slots| && forall i | 0 <= i < |t| :: t[i] == Aged(slots[i])
  {
    seq(|slots|, i requires 0 <= i < |slots| => Aged(slots[i]))
  }

  // No block could be had: the driver refused, or it granted one and there was no slot for it.
  ghost predicate Unavailable(slots: seq<Item>, t: seq<Item>, length: nat, refused: nat) {
    Allocation(slots, t, length, refused, false) || (Allocation(slots, t, length, refused, true) && AllPinned(t))
  }

  // The table has no free slot, and no block in it may go.
  ghost predicate AllPinned(slots: seq<Item>) {
    forall i | 0 <= i < |slots| :: slots[i].handle != 0 && 0 < slots[i].locks
  }

  // A new item goes to the first free slot; one is made free if the table is full.
  ghost predicate Placed(slots: seq<Item>, t: seq<Item>, item: Item) {
    exists u: seq<Item>, i: nat ::
      && i < |u| && u[i].handle == 0 && (forall j | 0 <= j < i :: u[j].handle != 0) && t == u[i := item]
      && (u == slots || (Dropped(slots, u, 0) && forall j | 0 <= j < |slots| :: slots[j].handle != 0))
  }

  function Locked(item: Item): Item { item.(locks := (if item.locks < 0 then 0 else item.locks) + 1) }

  // One more client for a block.
  ghost predicate Pinned(slots: seq<Item>, t: seq<Item>, h: nat) {
    exists i: nat :: i < |slots| && slots[i].handle == h && t == slots[i := Locked(slots[i])]
  }

  // A block was allocated for a part, put into the table and pinned.
  ghost predicate Taken(slots: seq<Item>, t: seq<Item>, part: Part, h: nat, refused: nat) {
    exists u: seq<Item>, v: seq<Item> ::
      && Allocation(slots, u, part.size, refused, true)
      && Placed(u, v, Item(part.fd, part.base, part.size, h, 0)) && Pinned(v, t, h)
  }

  lemma {:induction false} FindMeans(slots: seq<Item>, part: Part)
    ensures Find(slots, part) != 0 ==>
      exists i | 0 <= i < |slots| :: slots[i].handle == Find(slots, part) && PartOf(slots[i]) == part
    ensures Find(slots, part) == 0 ==>
      forall i | 0 <= i < |slots| :: slots[i].handle != 0 ==> PartOf(slots[i]) != part
  {
    if slots != [] && !(PartOf(slots[0]) == part && slots[0].handle != 0) {
      FindMeans(slots[1..], part);
      forall i | 0 <= i < |slots| && Find(slots, part) == 0 && slots[i].handle != 0
        ensures PartOf(slots[i]) != part
      {
        if i != 0 {
          assert slots[i] == slots[1..][i - 1];
        }
      }
    }
  }

  lemma {:induction false} FindAppend(slots: seq<Item>, item: Item, part: Part)
    ensures Find(slots + [item], part)
         == if Find(slots, part) != 0 then Find(slots, part) else Find([item], part)
  {
    if slots == [] {
      assert slots + [item] == [item];
    } else {
      assert (slots + [item])[1..] == slots[1..] + [item];
      FindAppend(slots[1..], item, part);
    }
  }

  // The block of a part can be pinned once more.
  predicate NotFull(slots: seq<Item>, part: Part) {
    forall i | 0 <= i < |slots| && slots[i].handle != 0 && PartOf(slots[i]) == part :: slots[i].locks < LOCKS_MAX
  }

  function Age(idle: nat): int { if 0 - idle < AGE_MIN then AGE_MIN else 0 - idle }

  // One request later.
  function Older(idle: map<nat, nat>): map<nat, nat> { map h | h in idle :: idle[h] + 1 }

  function Head(at: nat): nat { SECTOR - at % SECTOR }

  // How much of a part is stored from a file of some length: every read that falls short ends it, and the last bytes
  // are refused if they do not fit the block when their number is rounded up.
  function Stored(length: nat, part: Part): (n: nat)
    ensures part.base + n <= length || n == 0
  {
    if !HeadThere(length, part) || part.size == 0 then 0 else StoredFrom(length, part, Head(part.base))
  }

  // The file has the rest of the sector that a part begins in.
  predicate HeadThere(length: nat, part: Part) { part.base + Head(part.base) <= length }

  function StoredFrom(length: nat, part: Part, pos: nat): (n: nat)
    requires part.base + pos <= length
    ensures pos <= n && part.base + n <= length
    ensures n == pos || n <= part.size
    decreases part.size - pos
  {
    if part.size <= pos then pos
    else if part.size <= pos + SECTOR then
      if length < part.base + part.size || Refused(part, pos) then pos else part.size
    else if length < part.base + pos + SECTOR then pos
    else StoredFrom(length, part, pos + SECTOR)
  }

  predicate Refused(part: Part, pos: nat)
    requires pos <= part.size
  {
    Rounded(part.size) < pos + Even(part.size - pos)
  }

  // All of a part is stored exactly if the file has all of it and the rest of the sector it begins in, unless it fills
  // its block and begins at an odd place.
  lemma StoredWhole(length: nat, part: Part)
    requires 0 < part.size <= ITEM_MAX
    ensures part.size <= Stored(length, part) <==>
      && HeadThere(length, part) && part.base + part.size <= length
      && !(part.size % 1024 == 0 && part.base % 2 == 1)
  {
    hide StoredFrom, Rounded;
    if HeadThere(length, part) {
      StoredToEnd(length, part, Head(part.base));
      assert Head(part.base) % 2 == part.base % 2;
    }
  }

  lemma {:induction false} StoredToEnd(length: nat, part: Part, pos: nat)
    requires part.base + pos <= length && 0 < part.size <= ITEM_MAX
    ensures part.size <= StoredFrom(length, part, pos) <==>
      part.base + part.size <= length && !(pos < part.size && part.size % 1024 == 0 && pos % 2 == 1)
    decreases part.size - pos
  {
    hide Rounded;
    if pos < part.size {
      if part.size <= pos + SECTOR {
        RefusedExactly(part, pos);
      } else if part.base + pos + SECTOR <= length {
        StoredToEnd(length, part, pos + SECTOR);
        assert (pos + SECTOR) % 2 == pos % 2;
      }
    }
  }

  lemma RefusedExactly(part: Part, pos: nat)
    requires 0 < part.size <= ITEM_MAX && pos < part.size
    ensures Refused(part, pos) <==> part.size % 1024 == 0 && pos % 2 == 1
  {
    var n := part.size - pos;
    assert Rounded(part.size) == part.size + (1024 - part.size % 1024) % 1024;
  }

  // The last byte of a kilobyte that begins at an odd place is not stored.
  lemma OddKilobyte(fd: int)
    ensures Stored(5000, Part(fd, 1, 1024)) == 1023
  {
    var part := Part(fd, 1, 1024);
    assert StoredFrom(5000, part, 1023) == 1023;
    assert StoredFrom(5000, part, 511) == StoredFrom(5000, part, 1023);
  }

  // A part that lies wholly inside of a short file, and of which nothing is stored.
  lemma NothingOfShortFile(fd: int)
    ensures var length, part := 100, Part(fd, 0, 50);
      part.base + part.size <= length && !HeadThere(length, part) && Stored(length, part) == 0
  {
    assert 0 % SECTOR == 0;
  }

  // ----- The invariant -----

  type Files = map<int, seq<byte>>

  // held: every handle once for each time it was handed out and not yet discarded.
  // idle: how many times a part was requested since a handle was last released.
  // serving: the part of a file each live handle stands for.
  datatype State = State(slots: seq<Item>, blocks: map<nat, seq<byte>>,
                         held: multiset<nat>, idle: map<nat, nat>, serving: map<nat, Part>)

  ghost predicate Distinct(slots: seq<Item>) {
    forall i, j | 0 <= i < j < |slots| && slots[i].handle != 0 :: slots[i].handle != slots[j].handle
  }

  // The live blocks are those of the slots, and one not yet remembered if extra is not 0.
  ghost predicate Accounted(slots: seq<Item>, blocks: map<nat, seq<byte>>, extra: nat) {
    && (forall i | 0 <= i < |slots| && slots[i].handle != 0 ::
          slots[i].handle in blocks && slots[i].handle != extra)
    && (forall h | h in blocks :: h != 0 && (h == extra || exists i | 0 <= i < |slots| :: slots[i].handle == h))
    && (extra != 0 ==> extra in blocks)
  }

  // A part whose length is one the cache is made for.
  ghost predicate Fitting(files: Files, part: Part) { part.size <= ITEM_MAX && part.fd in files }

  // A live slot is what its handle serves.
  ghost predicate Listed(files: Files, item: Item, serving: map<nat, Part>) {
    item.handle != 0 ==>
      Fitting(files, PartOf(item)) && item.handle in serving && serving[item.handle] == PartOf(item)
  }

  // A block holds its part of the file, as far as it was stored.
  ghost predicate Loaded(files: Files, item: Item, blocks: map<nat, seq<byte>>) {
    item.handle != 0 && item.fd in files ==>
      && item.handle in blocks
      && |blocks[item.handle]| == Rounded(item.size)
      && Begins(blocks[item.handle], files[item.fd], item.base, Stored(|files[item.fd]|, PartOf(item)))
  }

  // The first n bytes are those of a file from some place on.
  ghost predicate Begins(block: seq<byte>, file: seq<byte>, base: nat, n: nat) {
    n == 0 || (n <= |block| && base + n <= |file| && block[..n] == file[base..base + n])
  }

  // They were stored there, and no more was changed than one byte behind them.
  ghost predicate Overwritten(was: seq<byte>, block: seq<byte>, file: seq<byte>, base: nat, n: nat) {
    && |block| == |was| && n <= |block| && Begins(block, file, base, n)
    && (n == 0 ==> block == was) && (n < |was| ==> block[n + 1..] == was[n + 1..])
  }

  // The lock counter is the number of clients, or without clients the age.
  ghost predicate Counted(item: Item, held: multiset<nat>, idle: map<nat, nat>) {
    item.handle != 0 ==>
      if 0 < item.locks then held[item.handle] == item.locks
      else held[item.handle] == 0 && item.handle in idle && item.locks == Age(idle[item.handle])
  }

  // The invariant, but for a block not yet remembered (extra) and a slot not yet loaded (raw).
  ghost predicate Sound(files: Files, s: State, extra: nat, raw: nat) {
    && |s.slots| == MAX_ITEMS
    && Distinct(s.slots) && Accounted(s.slots, s.blocks, extra)
    && (forall i | 0 <= i < |s.slots| :: Listed(files, s.slots[i], s.serving))
    && (forall i | 0 <= i < |s.slots| && s.slots[i].handle != raw :: Loaded(files, s.slots[i], s.blocks))
    && (forall i | 0 <= i < |s.slots| :: Counted(s.slots[i], s.held, s.idle))
    && (forall h | h in s.held :: h in s.blocks && h != extra)
  }

  // Handles held before stay live and stand for the same parts.
  ghost predicate Kept(s: State, t: State) {
    forall h | h in s.held :: h in t.blocks && h in s.serving && h in t.serving && t.serving[h] == s.serving[h]
  }

  lemma HeldSlot(files: Files, s: State, extra: nat, raw: nat, h: nat) returns (i: nat)
    requires Sound(files, s, extra, raw) && h in s.held
    ensures i < |s.slots| && s.slots[i].handle == h && h != 0 && 0 < s.slots[i].locks == s.held[h]
    ensures h in s.serving && s.serving[h] == PartOf(s.slots[i]) && Fitting(files, PartOf(s.slots[i]))
  {
    i :| 0 <= i < |s.slots| && s.slots[i].handle == h;
    assert Counted(s.slots[i], s.held, s.idle) && Listed(files, s.slots[i], s.serving);
  }

  // Of the blocks that nobody holds and that are large enough, the one to go is one that was idle for the most
  // requests, as far as they are counted; of those the one with the fewest kilobytes; and of those the first.
  lemma VictimIsOldest(files: Files, s: State, extra: nat, raw: nat, length: nat, i: nat, j: nat)
    requires Sound(files, s, extra, raw) && Victim(s.slots, length, i)
    requires j < |s.slots| && s.slots[j].handle != 0 && s.slots[j].handle !in s.held
    requires length <= (s.slots[j].size + 1023) / 1024 * 1024
    ensures s.slots[i].handle != 0 && s.slots[i].handle !in s.held
    ensures length <= (s.slots[i].size + 1023) / 1024 * 1024
    ensures s.slots[i].handle in s.idle && s.slots[j].handle in s.idle
    ensures var m, n := s.idle[s.slots[i].handle], s.idle[s.slots[j].handle];
      var a, b := (s.slots[i].size + 1023) / 1024, (s.slots[j].size + 1023) / 1024;
      && (n <= m || 0x8000 <= m)
      && (n == m || (0x8000 <= m && 0x8000 <= n) ==> a < b || (a == b && i <= j))
  {
    hide Distinct, Accounted, Loaded;
    assert Listed(files, s.slots[i], s.serving) && Listed(files, s.slots[j], s.serving);
    assert Counted(s.slots[i], s.held, s.idle) && Counted(s.slots[j], s.held, s.idle);
    hide Sound, Listed, Counted, Victim;
    VictimMeans(s.slots, length, i, j);
  }

  lemma VictimMeans(slots: seq<Item>, length: nat, i: nat, j: nat)
    requires Victim(slots, length, i) && j < |slots|
    ensures Evictable(slots[i], length)
    ensures Evictable(slots[j], length) ==> !Better(slots[j], slots[i]) && (j < i ==> Better(slots[i], slots[j]))
  {
  }

  lemma AllKept(files: Files, s: State, t: State, extra: nat, raw: nat)
    requires Sound(files, s, extra, raw)
    requires forall h | h in s.held ::
      h in t.blocks && (h in s.serving ==> h in t.serving && t.serving[h] == s.serving[h])
    ensures Kept(s, t)
  {
    forall h | h in s.held ensures h in s.serving {
      var _ := HeldSlot(files, s, extra, raw, h);
    }
  }

  // ----- Every step keeps it -----

  lemma AgeingKeeps(files: Files, s: State, slots: seq<Item>)
    requires Sound(files, s, 0, 0)
    requires |slots| == |s.slots| && forall i | 0 <= i < |slots| :: slots[i] == Aged(s.slots[i])
    ensures Sound(files, s.(slots := slots, idle := Older(s.idle)), 0, 0)
  {
    hide Accounted, Distinct, Counted, Loaded, Listed, Aged;
    var idle := Older(s.idle);
    forall i | 0 <= i < |slots|
      ensures slots[i].handle == s.slots[i].handle
      ensures Counted(slots[i], s.held, idle) && Listed(files, slots[i], s.serving)
      ensures slots[i].handle != 0 ==> Loaded(files, slots[i], s.blocks)
    {
      assert s.slots[i].handle != 0 ==> Loaded(files, s.slots[i], s.blocks);
      AgeingOfOne(files, s, s.slots[i]);
    }
    SameHandlesAccount(s.slots, slots, s.blocks, 0);
    NoSlotNoLoad(files, slots, s.blocks);
  }

  lemma AgeingOfOne(files: Files, s: State, item: Item)
    requires Counted(item, s.held, s.idle) && Listed(files, item, s.serving)
    requires item.handle != 0 ==> Loaded(files, item, s.blocks)
    ensures var idle := Older(s.idle);
      && Aged(item).handle == item.handle
      && Counted(Aged(item), s.held, idle) && Listed(files, Aged(item), s.serving)
      && (item.handle != 0 ==> Loaded(files, Aged(item), s.blocks))
  {
    hide Rounded, Fitting;
  }

  lemma NoSlotNoLoad(files: Files, slots: seq<Item>, blocks: map<nat, seq<byte>>)
    ensures forall i | 0 <= i < |slots| && slots[i].handle == 0 :: Loaded(files, slots[i], blocks)
  {
  }

  function Evicted(s: State, i: nat): State
    requires i < |s.slots|
  {
    s.(slots := s.slots[i := s.slots[i].(handle := 0)], blocks := s.blocks - {s.slots[i].handle})
  }

  lemma EvictionKeeps(files: Files, s: State, extra: nat, i: nat, length: nat)
    requires Sound(files, s, extra, 0) && Victim(s.slots, length, i)
    ensures Sound(files, Evicted(s, i), extra, 0) && Kept(s, Evicted(s, i))
  {
    hide Rounded, Fitting, Listed, Loaded, Distinct, Accounted;
    var t := Evicted(s, i);
    assert Counted(s.slots[i], s.held, s.idle);
    forall g | g in s.held ensures g in t.blocks && g in t.serving {
      var _ := HeldSlot(files, s, extra, 0, g);
    }
    AllKept(files, s, t, extra, 0);
    EvictionAccounts(s.slots, s.blocks, extra, i);
    forall j | 0 <= j < |t.slots|
      ensures Counted(t.slots[j], t.held, t.idle) && Listed(files, t.slots[j], t.serving)
      ensures t.slots[j].handle != 0 ==> Loaded(files, t.slots[j], t.blocks)
    {
      EvictionOfOne(files, s, i, j);
    }
  }

  lemma EvictionOfOne(files: Files, s: State, i: nat, j: nat)
    requires i < |s.slots| && j < |s.slots| && Distinct(s.slots)
    requires Counted(s.slots[j], s.held, s.idle) && Listed(files, s.slots[j], s.serving)
    requires s.slots[j].handle != 0 ==> Loaded(files, s.slots[j], s.blocks)
    ensures var t := Evicted(s, i);
      && Counted(t.slots[j], t.held, t.idle) && Listed(files, t.slots[j], t.serving)
      && (t.slots[j].handle != 0 ==> Loaded(files, t.slots[j], t.blocks))
  {
    hide Rounded, Fitting;
  }

  lemma EvictionAccounts(slots: seq<Item>, blocks: map<nat, seq<byte>>, extra: nat, i: nat)
    requires i < |slots| && slots[i].handle != 0
    requires Distinct(slots) && Accounted(slots, blocks, extra)
    ensures Distinct(slots[i := slots[i].(handle := 0)])
    ensures Accounted(slots[i := slots[i].(handle := 0)], blocks - {slots[i].handle}, extra)
  {
    var t, b := slots[i := slots[i].(handle := 0)], blocks - {slots[i].handle};
    forall g | g in b ensures g != 0 && (g == extra || exists j | 0 <= j < |t| :: t[j].handle == g) {
      if g != extra {
        var j :| 0 <= j < |slots| && slots[j].handle == g;
        assert t[j].handle == g;
      }
    }
    forall j | 0 <= j < |t| && t[j].handle != 0 ensures t[j].handle in b && t[j].handle != extra {
      assert slots[j].handle != slots[i].handle;
    }
  }

  lemma SameHandlesAccount(slots: seq<Item>, t: seq<Item>, blocks: map<nat, seq<byte>>, extra: nat)
    requires |t| == |slots| && forall i | 0 <= i < |t| :: t[i].handle == slots[i].handle
    requires Distinct(slots) && Accounted(slots, blocks, extra)
    ensures Distinct(t) && Accounted(t, blocks, extra)
  {
    forall g | g in blocks ensures g == extra || exists j | 0 <= j < |t| :: t[j].handle == g {
      if g != extra {
        var j :| 0 <= j < |slots| && slots[j].handle == g;
        assert t[j].handle == g;
      }
    }
  }

  lemma LockingKeeps(files: Files, s: State, raw: nat, i: nat)
    requires Sound(files, s, 0, raw) && i < |s.slots| && s.slots[i].handle != 0
    ensures var t := s.(slots := s.slots[i := Locked(s.slots[i])], held := s.held + multiset{s.slots[i].handle});
      Sound(files, t, 0, raw)
  {
    hide Rounded, Fitting, Accounted;
    var t := s.(slots := s.slots[i := Locked(s.slots[i])], held := s.held + multiset{s.slots[i].handle});
    SameHandlesAccount(s.slots, t.slots, s.blocks, 0);
    forall j | 0 <= j < |t.slots|
      ensures Counted(t.slots[j], t.held, t.idle) && Listed(files, t.slots[j], t.serving)
      ensures t.slots[j].handle != raw ==> Loaded(files, t.slots[j], t.blocks)
    {
      assert Counted(s.slots[j], s.held, s.idle) && Listed(files, s.slots[j], s.serving);
      assert s.slots[j].handle != raw ==> Loaded(files, s.slots[j], s.blocks);
      assert j != i && s.slots[j].handle != 0 ==> s.slots[j].handle != s.slots[i].handle;
    }
  }

  // The last client to let go of a handle starts its age.
  function Released(held: multiset<nat>, idle: map<nat, nat>, h: nat): map<nat, nat> {
    if held[h] == 1 then idle[h := 0] else idle
  }

  lemma NothingReleased(held: multiset<nat>, idle: map<nat, nat>, h: nat)
    ensures h !in held ==> Released(held, idle, h) == idle && held - multiset{h} == held
  {
  }

  lemma UnlockingCounts(slots: seq<Item>, held: multiset<nat>, idle: map<nat, nat>, i: nat, j: nat)
    requires Distinct(slots) && i < |slots| && j < |slots| && slots[i].handle != 0 && slots[i].handle in held
    requires Counted(slots[i], held, idle) && Counted(slots[j], held, idle)
    ensures 0 < slots[i].locks
    ensures Counted(slots[i := slots[i].(locks := slots[i].locks - 1)][j],
                    held - multiset{slots[i].handle}, Released(held, idle, slots[i].handle))
  {
    if i < j {
      assert slots[j].handle != slots[i].handle;
    } else if j < i && slots[j].handle != 0 {
      assert slots[j].handle != slots[i].handle;
    }
  }

  lemma UnlockingKeeps(files: Files, s: State, i: nat)
    requires Sound(files, s, 0, 0) && i < |s.slots| && s.slots[i].handle in s.held
    ensures var h := s.slots[i].handle;
      var t := s.(slots := s.slots[i := s.slots[i].(locks := s.slots[i].locks - 1)], held := s.held - multiset{h},
                  idle := Released(s.held, s.idle, h));
      Sound(files, t, 0, 0) && 0 < s.slots[i].locks
  {
    hide Loaded, Listed, Counted, Accounted, Distinct, Released;
    var h := s.slots[i].handle;
    var t := s.(slots := s.slots[i := s.slots[i].(locks := s.slots[i].locks - 1)], held := s.held - multiset{h},
                idle := Released(s.held, s.idle, h));
    var _ := HeldSlot(files, s, 0, 0, h);
    SameHandlesAccount(s.slots, t.slots, s.blocks, 0);
    forall j | 0 <= j < |t.slots|
      ensures Counted(t.slots[j], t.held, t.idle) && Listed(files, t.slots[j], t.serving)
      ensures t.slots[j].handle != 0 ==> Loaded(files, t.slots[j], t.blocks)
    {
      UnlockingCounts(s.slots, s.held, s.idle, i, j);
      SamePart(files, s, s.slots[j], t.slots[j]);
    }
    NoSlotNoLoad(files, t.slots, t.blocks);
  }

  lemma SamePart(files: Files, s: State, a: Item, b: Item)
    requires b == a.(locks := b.locks)
    requires Listed(files, a, s.serving) && (a.handle != 0 ==> Loaded(files, a, s.blocks))
    ensures Listed(files, b, s.serving) && (b.handle != 0 ==> Loaded(files, b, s.blocks))
  {
  }

  lemma AllocationKeeps(files: Files, s: State, h: nat, block: seq<byte>)
    requires Sound(files, s, 0, 0) && h != 0 && h !in s.blocks
    ensures Sound(files, s.(blocks := s.blocks[h := block]), h, 0)
  {
    hide Rounded, Fitting, Counted, Listed, Distinct, Accounted, Stored, Begins;
    var t := s.(blocks := s.blocks[h := block]);
    AllocationAccounts(s.slots, s.blocks, h, block);
    forall j | 0 <= j < |t.slots| && t.slots[j].handle != 0
      ensures Loaded(files, t.slots[j], t.blocks)
    {
      assert Loaded(files, s.slots[j], s.blocks);
    }
    NoSlotNoLoad(files, t.slots, t.blocks);
    assert forall g | g in s.held :: g in s.blocks && g != h;
  }

  lemma AllocationAccounts(slots: seq<Item>, blocks: map<nat, seq<byte>>, h: nat, block: seq<byte>)
    requires Accounted(slots, blocks, 0) && h != 0 && h !in blocks
    ensures Accounted(slots, blocks[h := block], h)
    ensures forall i | 0 <= i < |slots| && slots[i].handle != 0 :: slots[i].handle != h
  {
    var b := blocks[h := block];
    forall g | g in b ensures g != 0 && (g == h || exists i | 0 <= i < |slots| :: slots[i].handle == g) {
    }
  }

  lemma RememberingKeeps(files: Files, s: State, h: nat, i: nat, part: Part)
    requires Sound(files, s, h, 0) && h != 0 && i < |s.slots| && s.slots[i].handle == 0 && Fitting(files, part)
    ensures var t := s.(slots := s.slots[i := Item(part.fd, part.base, part.size, h, 0)],
                        idle := s.idle[h := 0], serving := s.serving[h := part]);
      Sound(files, t, 0, h) && Kept(s, t)
  {
    hide Rounded, Fitting, Accounted, Distinct;
    var t := s.(slots := s.slots[i := Item(part.fd, part.base, part.size, h, 0)],
                idle := s.idle[h := 0], serving := s.serving[h := part]);
    RememberedAccounts(s.slots, s.blocks, h, i, t.slots[i]);
    forall g | g in s.held ensures g in t.blocks && g in t.serving && g != h && g != 0 {
      var _ := HeldSlot(files, s, h, 0, g);
    }
    AllKept(files, s, t, h, 0);
    assert PartOf(t.slots[i]) == part;
    forall j | 0 <= j < |t.slots|
      ensures Counted(t.slots[j], t.held, t.idle) && Listed(files, t.slots[j], t.serving)
      ensures t.slots[j].handle != h ==> Loaded(files, t.slots[j], t.blocks)
    {
      assert Counted(s.slots[j], s.held, s.idle) && Listed(files, s.slots[j], s.serving);
      assert s.slots[j].handle != 0 ==> Loaded(files, s.slots[j], s.blocks);
    }
  }

  lemma RememberedAccounts(slots: seq<Item>, blocks: map<nat, seq<byte>>, h: nat, i: nat, item: Item)
    requires i < |slots| && slots[i].handle == 0 && h != 0 && item.handle == h
    requires Distinct(slots) && Accounted(slots, blocks, h)
    ensures Distinct(slots[i := item]) && Accounted(slots[i := item], blocks, 0)
    ensures forall j | 0 <= j < |slots| :: slots[j].handle != h
  {
    var t := slots[i := item];
    forall g | g in blocks ensures exists j | 0 <= j < |t| :: t[j].handle == g {
      if g == h {
        assert t[i].handle == h;
      } else {
        var j :| 0 <= j < |slots| && slots[j].handle == g;
        assert t[j].handle == g;
      }
    }
  }

  lemma LoadingKeeps(files: Files, s: State, raw: nat, i: nat, block: seq<byte>)
    requires Sound(files, s, 0, raw) && i < |s.slots| && s.slots[i].handle != 0
    requires raw == 0 || raw == s.slots[i].handle
    requires |block| == Rounded(s.slots[i].size) && s.slots[i].fd in files
    requires var item := s.slots[i]; var file := files[item.fd];
      Begins(block, file, item.base, Stored(|file|, PartOf(item)))
    ensures Sound(files, s.(blocks := s.blocks[s.slots[i].handle := block]), 0, 0)
  {
    hide Rounded, Fitting, Counted, Stored, Begins;
    var t := s.(blocks := s.blocks[s.slots[i].handle := block]);
    assert t.blocks.Keys == s.blocks.Keys;
    forall j | 0 <= j < |t.slots| && t.slots[j].handle != 0
      ensures Loaded(files, t.slots[j], t.blocks)
    {
      assert j != i ==> s.slots[j].handle != s.slots[i].handle;
      assert j != i ==> Loaded(files, s.slots[j], s.blocks);
    }
  }

  class FileCache {
    const slots: array<Item>
    const xms: Xms
    const files: map<int, seq<byte>>

    // Every handle once for each time it was handed out and not yet discarded.
    ghost var held: multiset<nat>
    // How many times a part was requested since a handle was last released.
    ghost var idle: map<nat, nat>
    // The part of a file each live handle stands for.
    ghost var serving: map<nat, Part>
    // How many reads of files failed.
    ghost var failures: nat

    ghost function View(): State
      reads this, slots, xms
    {
      State(slots[..], xms.blocks, held, idle, serving)
    }

    ghost predicate Valid()
      reads this, slots, xms
    {
      Sound(files, View(), 0, 0)
    }

    constructor (files: map<int, seq<byte>>)
      ensures Valid() && fresh(slots) && fresh(xms)
      ensures this.files == files && held == multiset{} && idle == map[] && xms.refusals == 0
    {
      this.files := files;
      slots := new Item[MAX_ITEMS](_ => Item(0, 0, 0, 0, 0));
      xms := new Xms();
      held, idle, serving, failures := multiset{}, map[], map[], 0;
    }

    // ----- The steps -----

    method RetrieveCache(fd: int, at: nat, size: nat) returns (handle: nat)
      modifies slots
      ensures handle == Find(old(slots[..]), Part(fd, at, size))
      ensures forall i | 0 <= i < slots.Length :: slots[i] == Aged(old(slots[i]))
    {
      handle := 0;
      ghost var before := slots[..];
      for i := 0 to slots.Length
        invariant handle == Find(before[..i], Part(fd, at, size))
        invariant forall j | 0 <= j < slots.Length :: slots[j] == if j < i then Aged(before[j]) else before[j]
      {
        assert before[..i + 1] == before[..i] + [before[i]];
        FindAppend(before[..i], before[i], Part(fd, at, size));
        if handle == 0 && fd == slots[i].fd && at == slots[i].base && size == slots[i].size {
          handle := slots[i].handle;
        }
        if slots[i].handle != 0 && 0 >= slots[i].locks && AGE_MIN < slots[i].locks {
          slots[i] := slots[i].(locks := slots[i].locks - 1);
        }
      }
      assert before[..slots.Length] == before;
    }

    method FindCache(handle: nat) returns (i: nat)
      ensures i <= slots.Length
      ensures i < slots.Length ==> slots[i].handle == handle
      ensures forall j | 0 <= j < i :: slots[j].handle != handle
    {
      i := 0;
      while i < slots.Length
        invariant i <= slots.Length
        invariant forall j | 0 <= j < i :: slots[j].handle != handle
      {
        if handle == slots[i].handle {
          return;
        }
        i := i + 1;
      }
    }

    method Evict(length: nat) returns (done: bool)
      requires forall i | 0 <= i < slots.Length && slots[i].handle != 0 ::
        slots[i].size <= ITEM_MAX && slots[i].handle in xms.blocks
      modifies slots, xms`blocks, xms`errno
      ensures xms.errno == if done then 0 else old(xms.errno)
      ensures !done ==>
        && slots[..] == old(slots[..]) && xms.blocks == old(xms.blocks)
        && forall i | 0 <= i < slots.Length :: !Evictable(slots[i], length)
      ensures done ==> exists i: nat ::
        && Victim(old(slots[..]), length, i)
        && slots[..] == old(slots[..])[i := old(slots[i]).(handle := 0)]
        && xms.blocks == old(xms.blocks) - {old(slots[i]).handle}
    {
      var bestI, bestAge, bestHandle, bestSize := 0, 0, 0, SIZE_MAX;
      for i := 0 to slots.Length
        invariant bestHandle == 0 ==> bestAge == 0 && bestSize == SIZE_MAX
        invariant bestHandle == 0 ==> forall j | 0 <= j < i :: !Evictable(slots[j], length)
        invariant bestHandle != 0 ==> bestI < i && Victim(slots[..i], length, bestI)
        invariant bestHandle != 0 ==>
          bestHandle == slots[bestI].handle && bestAge == slots[bestI].locks && bestSize == Rounded(slots[bestI].size)
      {
        assert slots[..i + 1] == slots[..i] + [slots[i]];
        if slots[i].handle == 0 || bestAge < slots[i].locks {
          continue;
        }
        var alignedSize := Rounded(slots[i].size);
        if length > alignedSize {
          continue;
        }
        if bestAge == slots[i].locks {
          if bestSize > alignedSize {
            bestI, bestHandle, bestSize := i, slots[i].handle, alignedSize;
          }
          continue;
        }
        bestI, bestAge, bestHandle, bestSize := i, slots[i].locks, slots[i].handle, alignedSize;
      }
      assert slots[..slots.Length] == slots[..];
      if bestHandle == 0 {
        return false;
      }
      var freed := xms.Free(bestHandle);
      if !freed {
        assert false;
        return false;
      }
      slots[bestI] := slots[bestI].(handle := 0);
      return true;
    }

    // ----- Loading -----

    // A read may fail, and then it sets errno; one that meets the end of the file falls short and leaves errno alone.
    method ReadFile(fd: int, at: nat, n: nat) returns (bytes: seq<byte>)
      requires fd in files && 0 < n
      modifies xms`errno, this`failures
      ensures old(failures) <= failures
      ensures failures != old(failures) ==> xms.errno != 0 && bytes == []
      ensures failures == old(failures) ==> xms.errno == old(xms.errno)
      ensures |bytes| == n <==> failures == old(failures) && at + n <= |files[fd]|
      ensures |bytes| == n ==> bytes == files[fd][at..at + n]
    {
      if * {
        failures, xms.errno := failures + 1, EIO;
        return [];
      }
      var file := files[fd];
      bytes := if |file| <= at then [] else if |file| < at + n then file[at..] else file[at..at + n];
    }

    // Copies a part of a file to the start of a block: up to a sector boundary, then sector by sector.
    // A read that does not give all it was asked for ends it with errno, which may be zero.
    method LoadData(fd: int, at: nat, size: nat, handle: nat) returns (status: int)
      requires Fitting(files, Part(fd, at, size))
      requires handle in xms.blocks && |xms.blocks[handle]| == Rounded(size)
      modifies xms`blocks, xms`errno, this`failures
      ensures old(failures) <= failures
      ensures status == 0 <==>
        failures == old(failures) && (HeadThere(|files[fd]|, Part(fd, at, size)) || old(xms.errno) == 0)
      ensures handle in xms.blocks && xms.blocks == old(xms.blocks)[handle := xms.blocks[handle]]
      ensures failures == old(failures) ==>
        Overwritten(old(xms.blocks)[handle], xms.blocks[handle], files[fd], at,
                    Stored(|files[fd]|, Part(fd, at, size)))
    {
      hide Overwritten, Stored, StoredFrom, Rounded, Refused;
      ghost var part, length, before := Part(fd, at, size), |files[fd]|, xms.blocks;
      HeadFits(at, size);
      StoredFirst(length, part);
      NothingStored(before[handle], files[fd], at);
      var head := SECTOR - at % SECTOR;
      var buff := ReadFile(fd, at, head);
      if head != |buff| {
        return -xms.errno;
      }
      var _ := StoreNext(fd, at, 0, buff, handle, before[handle]);
      var pos := head;
      while pos + SECTOR < size
        invariant head <= pos && at + pos <= length && (pos == head || pos < size)
        invariant Stored(length, part) == if size == 0 then 0 else StoredFrom(length, part, pos)
        invariant failures == old(failures) && (0 < size ==> xms.errno == 0)
        invariant handle in xms.blocks && xms.blocks == before[handle := xms.blocks[handle]]
        invariant |xms.blocks[handle]| == Rounded(size)
        invariant Overwritten(before[handle], xms.blocks[handle], files[fd], at, if size == 0 then 0 else pos)
      {
        StoredNext(length, part, pos);
        SectorFits(size, pos);
        buff := ReadFile(fd, at + pos, SECTOR);
        if SECTOR != |buff| {
          return -xms.errno;
        }
        var _ := StoreNext(fd, at, pos, buff, handle, before[handle]);
        pos := pos + SECTOR;
      }
      StoredNext(length, part, pos);
      if pos < size {
        buff := ReadFile(fd, at + pos, size - pos);
        if size - pos != |buff| {
          return -xms.errno;
        }
        RefusedMeans(part, pos);
        var _ := StoreNext(fd, at, pos, buff, handle, before[handle]);
      }
      status := 0;
    }

    // The next bytes of a part go behind those already stored, or are refused.
    method StoreNext(fd: int, at: nat, pos: nat, buff: seq<byte>, handle: nat, ghost was: seq<byte>)
      returns (stored: bool)
      requires fd in files && at + pos + |buff| <= |files[fd]| && buff == files[fd][at + pos..at + pos + |buff|]
      requires handle in xms.blocks && 0 < |buff| <= SECTOR
      requires Overwritten(was, xms.blocks[handle], files[fd], at, pos)
      modifies xms`blocks, xms`errno
      ensures stored <==> pos + Even(|buff|) <= old(|xms.blocks[handle]|)
      ensures xms.errno == 0 <==> stored
      ensures handle in xms.blocks && xms.blocks == old(xms.blocks)[handle := xms.blocks[handle]]
      ensures |xms.blocks[handle]| == old(|xms.blocks[handle]|)
      ensures Overwritten(was, xms.blocks[handle], files[fd], at, if stored then pos + |buff| else pos)
    {
      ghost var block := xms.blocks[handle];
      stored := xms.Store(handle, pos, buff);
      if stored {
        StoredBehind(was, block, xms.blocks[handle], files[fd], at, pos, buff);
      }
    }

    // ----- Operations on the slots -----

    method LockCache(handle: nat, ghost raw: nat)
      requires exists i | 0 <= i < slots.Length :: slots[i].handle == handle && handle != 0
      modifies slots, this`held
      ensures Pinned(old(slots[..]), slots[..], handle)
      ensures View() == old(View()).(slots := slots[..], held := old(held) + multiset{handle})
      ensures old(Sound(files, View(), 0, raw)) ==> Sound(files, View(), 0, raw)
    {
      hide Sound;
      ghost var s := View();
      var i := FindCache(handle);
      if Sound(files, s, 0, raw) {
        LockingKeeps(files, s, raw, i);
      }
      if 0 > slots[i].locks {
        slots[i] := slots[i].(locks := 0);
      }
      slots[i] := slots[i].(locks := slots[i].locks + 1);
      held := held + multiset{handle};
      assert slots[..] == s.slots[i := Locked(s.slots[i])];
    }

    // A handle nobody holds is let alone.
    method UnlockCache(handle: nat)
      requires Valid()
      modifies slots, this`held, this`idle
      ensures Valid()
      ensures held == old(held) - multiset{handle} && idle == Released(old(held), old(idle), handle)
      ensures forall i | 0 <= i < slots.Length :: slots[i].handle == old(slots[i].handle)
      ensures handle !in old(held) ==> slots[..] == old(slots[..]) && held == old(held) && idle == old(idle)
    {
      hide Loaded, Listed, Counted, Released, Distinct, Accounted;
      ghost var s := View();
      var i := if handle == 0 then slots.Length else 0;
      if handle != 0 {
        i := FindCache(handle);
      }
      HeldOrNot(files, s, handle);
      NothingReleased(held, idle, handle);
      if i < slots.Length && 0 < slots[i].locks {
        UnlockingKeeps(files, s, i);
        slots[i] := slots[i].(locks := slots[i].locks - 1);
        idle := Released(held, idle, handle);
        held := held - multiset{handle};
        assert slots[..] == s.slots[i := s.slots[i].(locks := s.slots[i].locks - 1)];
      }
    }

    method EvictOne(length: nat, ghost extra: nat) returns (done: bool)
      requires Sound(files, View(), extra, 0)
      modifies slots, xms`blocks, xms`errno
      ensures xms.errno == if done then 0 else old(xms.errno)
      ensures Sound(files, View(), extra, 0) && Kept(old(View()), View())
      ensures !done ==> View() == old(View()) && forall i | 0 <= i < slots.Length :: !Evictable(slots[i], length)
      ensures done ==> Dropped(old(slots[..]), slots[..], length)
      ensures done ==> exists i | 0 <= i < slots.Length :: slots[i].handle == 0
      ensures forall h | h in xms.blocks :: h in old(xms.blocks) && xms.blocks[h] == old(xms.blocks[h])
    {
      hide Loaded, Counted, Distinct, Kept;
      ghost var s := View();
      assert forall i | 0 <= i < slots.Length :: Listed(files, s.slots[i], s.serving);
      done := Evict(length);
      if done {
        ghost var i: nat :| i < |s.slots| && Victim(s.slots, length, i)
                && slots[..] == s.slots[i := s.slots[i].(handle := 0)]
                && xms.blocks == s.blocks - {s.slots[i].handle};
        EvictionKeeps(files, s, extra, i, length);
        assert i < slots.Length && slots[..][i].handle == 0;
      } else {
        NothingLost(files, s, extra);
      }
    }

    // Evicts at most one block, and asks the driver at most twice.
    method AllocateCache(length: nat) returns (handle: nat)
      requires Valid()
      modifies slots, xms
      ensures Sound(files, View(), handle, 0) && Kept(old(View()), View())
      ensures handle != 0 ==>
        |xms.blocks[handle]| == Kilobytes(length) * 1024 && xms.blocks[handle] == xms.granted && xms.errno == 0
      ensures old(xms.refusals) <= xms.refusals
      ensures Allocation(old(slots[..]), slots[..], length, xms.refusals - old(xms.refusals), handle != 0)
    {
      hide Loaded, Listed, Counted, Distinct, Kept, Evictable, Dropped;
      ghost var s := View();
      handle := xms.Alloc(Kilobytes(length));
      if handle != 0 {
        AllocationKeeps(files, s, handle, xms.blocks[handle]);
        GrowthKeeps(files, s, handle, xms.blocks[handle]);
        return;
      }
      var done := EvictOne(length, 0);
      if !done {
        return;
      }
      ghost var t := View();
      handle := xms.Alloc(Kilobytes(length));
      if handle != 0 {
        AllocationKeeps(files, t, handle, xms.blocks[handle]);
        GrowthKeeps(files, t, handle, xms.blocks[handle]);
        KeptTwice(s, t, View());
      }
    }

    // Fails only if every slot is taken and pinned.
    method RememberCache(part: Part, handle: nat) returns (ok: bool)
      requires Fitting(files, part) && handle != 0 && Sound(files, View(), handle, 0)
      modifies slots, xms`blocks, xms`errno, this`idle, this`serving
      ensures old(xms.errno) == 0 ==> xms.errno == 0
      ensures handle in xms.blocks && xms.blocks[handle] == old(xms.blocks[handle])
      ensures idle == if ok then old(idle)[handle := 0] else old(idle)
      ensures serving == if ok then old(serving)[handle := part] else old(serving)
      ensures !ok ==> Sound(files, View(), handle, 0) && View() == old(View()) && AllPinned(slots[..])
      ensures ok ==> Placed(old(slots[..]), slots[..], Item(part.fd, part.base, part.size, handle, 0))
      ensures ok ==> Sound(files, View(), 0, handle) && Kept(old(View()), View())
      ensures ok ==> Alone(slots[..], Item(part.fd, part.base, part.size, handle, 0))
    {
      hide Sound, Fitting, Kept, Dropped, Placed, Alone;
      ghost var s := View();
      ExtraLive(files, s, handle);
      NothingLost(files, s, handle);
      var i := FindCache(0);
      if i == slots.Length {
        var done := EvictOne(0, handle);
        ExtraLive(files, View(), handle);
        if !done {
          return false;
        }
        i := FindCache(0);
      }
      ghost var t := View();
      RememberingKeeps(files, t, handle, i, part);
      slots[i] := Item(part.fd, part.base, part.size, handle, 0);
      idle := idle[handle := 0];
      serving := serving[handle := part];
      assert slots[..] == t.slots[i := slots[i]];
      NewSlot(files, t, handle, i, slots[i]);
      PlacedThere(s.slots, t.slots, i, slots[i]);
      KeptTwice(s, t, View());
      return true;
    }

    // ----- The operations of the cache -----

    // A block for a part that is not in the cache, pinned and not yet filled.
    method Acquire(part: Part) returns (handle: nat)
      requires Valid() && Fitting(files, part)
      modifies slots, xms, this`held, this`idle, this`serving
      ensures old(xms.refusals) <= xms.refusals
      ensures handle == 0 ==>
        && Valid() && Kept(old(View()), View()) && held == old(held) && idle == old(idle)
        && Unavailable(old(slots[..]), slots[..], part.size, xms.refusals - old(xms.refusals))
      ensures handle != 0 ==>
        && held == old(held) + multiset{handle} && idle == old(idle)[handle := 0]
        && serving == old(serving)[handle := part]
        && handle in xms.blocks && |xms.blocks[handle]| == Rounded(part.size)
        && xms.blocks[handle] == xms.granted && xms.errno == 0
        && Taken(old(slots[..]), slots[..], part, handle, xms.refusals - old(xms.refusals))
      ensures handle != 0 ==> exists i: nat :: IsPinned(slots[..], i, part, handle, 0)
      ensures handle != 0 ==> Sound(files, View(), 0, handle) && Kept(old(View()), View())
    {
      hide Sound, Kept, Rounded, Fitting, Allocation, AllPinned, Placed, Locked;
      ghost var s := View();
      handle := AllocateCache(part.size);
      ghost var u := View();
      if handle == 0 {
        return;
      }
      ExtraLive(files, u, handle);
      SizeInKilobytes(files, part);
      var ok := RememberCache(part, handle);
      ghost var v := View();
      if !ok {
        FreeingKeeps(files, u, handle);
        var _ := xms.Free(handle);
        KeptTwice(s, u, View());
        return 0;
      }
      KeptTwice(s, u, v);
      LockCache(handle, handle);
      OnlySlot(v.slots, slots[..], Item(part.fd, part.base, part.size, handle, 0));
      Takes(s.slots, u.slots, v.slots, slots[..], part, handle, xms.refusals - old(xms.refusals));
      SameKept(s, v, View());
    }

    // A block for a part, pinned: the one in the cache, filled before, or one to be filled.
    method Attach(part: Part) returns (handle: nat)
      requires Valid() && Fitting(files, part)
      modifies slots, xms, this`held, this`idle, this`serving
      ensures old(xms.refusals) <= xms.refusals
      ensures old(Find(slots[..], part)) != 0 ==>
        && handle == old(Find(slots[..], part)) && xms.refusals == old(xms.refusals)
        && xms.blocks == old(xms.blocks) && xms.errno == old(xms.errno)
        && Pinned(AllAged(old(slots[..])), slots[..], handle)
      ensures handle == 0 ==>
        && Valid() && Kept(old(View()), View()) && held == old(held) && idle == Older(old(idle))
        && Unavailable(AllAged(old(slots[..])), slots[..], part.size, xms.refusals - old(xms.refusals))
      ensures handle != 0 ==>
        && held == old(held) + multiset{handle} && handle in serving && serving[handle] == part
        && idle == (if old(Find(slots[..], part)) == 0 then Older(old(idle))[handle := 0] else Older(old(idle)))
        && handle in xms.blocks && |xms.blocks[handle]| == Rounded(part.size)
      ensures handle != 0 && old(Find(slots[..], part)) == 0 ==>
        && xms.blocks[handle] == xms.granted && xms.errno == 0
        && Taken(AllAged(old(slots[..])), slots[..], part, handle, xms.refusals - old(xms.refusals))
      ensures handle != 0 ==> exists i: nat :: IsPinned(slots[..], i, part, handle, old(Find(slots[..], part)))
      ensures handle != 0 ==>
        Sound(files, View(), 0, if old(Find(slots[..], part)) == 0 then handle else 0) && Kept(old(View()), View())
    {
      hide Sound, Kept, Aged, Rounded, Fitting, Unavailable, Taken, Pinned, Older;
      ghost var s := View();
      handle := RetrieveCache(part.fd, part.base, part.size);
      AgeingKeeps(files, s, slots[..]);
      idle := Older(idle);
      ghost var t := View();
      assert t.slots == AllAged(s.slots);
      StillKept(files, s, t, 0);
      if handle != 0 {
        FoundLive(files, s, t, part);
        LockCache(handle, 0);
        StillPinned(t.slots, slots[..], part, handle);
        SameKept(s, t, View());
        return;
      }
      handle := Acquire(part);
      KeptTwice(s, t, View());
    }

    // got: a block was found, or could be had, for the part. The handle is zero if there was none, if a read failed,
    // or if a part that is in the cache has no whole sector to begin with and errno was set before. The cache is in
    // order again unless there was a block that was not loaded: its slot stays behind, with a handle given back.
    method PalCache(fd: int, at: nat, size: nat) returns (handle: nat, got: bool)
      requires Valid() && Fitting(files, Part(fd, at, size))
      requires NotFull(slots[..], Part(fd, at, size))
      modifies slots, xms, this`held, this`idle, this`serving, this`failures
      ensures old(failures) <= failures && old(xms.refusals) <= xms.refusals
      ensures handle != 0 <==>
        && got && failures == old(failures)
        && (old(Find(slots[..], Part(fd, at, size))) == 0 || HeadThere(|files[fd]|, Part(fd, at, size))
            || old(xms.errno) == 0)
      ensures Valid() <==> (got ==> handle != 0)
      ensures Valid() ==> Kept(old(View()), View())
      ensures !got ==> held == old(held)
      ensures handle != 0 ==>
        && held == old(held) + multiset{handle}
        && handle in serving && serving[handle] == Part(fd, at, size)
      // A part that is in the cache is found there and pinned once more.
      ensures old(Find(slots[..], Part(fd, at, size))) != 0 ==>
        && got && (handle != 0 ==> handle == old(Find(slots[..], Part(fd, at, size))))
        && xms.refusals == old(xms.refusals)
        && Pinned(AllAged(old(slots[..])), slots[..], old(Find(slots[..], Part(fd, at, size))))
        && (handle != 0 ==>
              && handle in xms.blocks && handle in old(xms.blocks)
              && xms.blocks == old(xms.blocks)[handle := xms.blocks[handle]]
              && SameBut(old(xms.blocks)[handle], xms.blocks[handle], Stored(|files[fd]|, Part(fd, at, size))))
      // Any other gets a block of its own, or there is none to be had.
      ensures old(Find(slots[..], Part(fd, at, size))) == 0 && handle != 0 ==>
        && Taken(AllAged(old(slots[..])), slots[..], Part(fd, at, size), handle, xms.refusals - old(xms.refusals))
        && handle in xms.blocks
        && Overwritten(xms.granted, xms.blocks[handle], files[fd], at, Stored(|files[fd]|, Part(fd, at, size)))
      ensures !got ==>
        Unavailable(AllAged(old(slots[..])), slots[..], size, xms.refusals - old(xms.refusals))
      ensures got && handle == 0 ==> exists i | 0 <= i < slots.Length ::
        slots[i].handle != 0 && slots[i].handle !in xms.blocks && PartOf(slots[i]) == Part(fd, at, size)
      // Every block nobody holds is one request older.
      ensures !got || old(Find(slots[..], Part(fd, at, size))) != 0 ==> idle == Older(old(idle))
      ensures handle != 0 && old(Find(slots[..], Part(fd, at, size))) == 0 ==> idle == Older(old(idle))[handle := 0]
    {
      hide Sound, Kept, Rounded, Unavailable, Taken, Pinned, Fitting, Older, AllAged, Overwritten, HeadThere;
      var part := Part(fd, at, size);
      ghost var s := View();
      handle := Attach(part);
      got := handle != 0;
      if handle == 0 {
        return;
      }
      ghost var v := View();
      ghost var found := Find(s.slots, part);
      ghost var i: nat :| IsPinned(v.slots, i, part, handle, found);
      var ok := Fill(part, handle, i, found);
      if ok {
        SameKept(s, v, View());
        if found != 0 {
          Reloaded(files, s, part, xms.blocks);
        }
      } else {
        assert slots[i] == v.slots[i];
        handle := 0;
      }
    }

    // Fills a block, or gives it back.
    method Fill(part: Part, handle: nat, ghost i: nat, ghost found: nat) returns (ok: bool)
      requires Fitting(files, part) && handle in xms.blocks && |xms.blocks[handle]| == Rounded(part.size)
      requires i < slots.Length && slots[i].handle == handle != 0 && PartOf(slots[i]) == part
      requires Sound(files, View(), 0, if found == 0 then handle else 0)
      modifies xms`blocks, xms`errno, this`failures
      ensures old(failures) <= failures
      ensures ok <==> failures == old(failures) && (HeadThere(|files[part.fd]|, part) || old(xms.errno) == 0)
      ensures ok ==>
        && Valid() && handle in xms.blocks && xms.blocks == old(xms.blocks)[handle := xms.blocks[handle]]
        && Overwritten(old(xms.blocks)[handle], xms.blocks[handle], files[part.fd], part.base,
                       Stored(|files[part.fd]|, part))
      ensures !ok ==> !Valid() && handle !in xms.blocks
    {
      hide Sound, Rounded, HeadThere;
      ghost var s := View();
      var status := LoadData(part.fd, part.base, part.size, handle);
      ok := status == 0;
      if ok {
        LoadingKeeps(files, s, if found == 0 then handle else 0, i, xms.blocks[handle]);
      } else {
        var _ := xms.Free(handle);
        StaleSlot(files, View(), i);
      }
    }

    method PalDiscard(handle: nat)
      requires Valid()
      modifies slots, this`held, this`idle
      ensures Valid()
      ensures held == old(held) - multiset{handle} && idle == Released(old(held), old(idle), handle)
      ensures handle == 0 || handle !in old(held) ==> held == old(held) && idle == old(idle)
      ensures serving == old(serving)
    {
      hide Sound, Released;
      HeldOrNot(files, View(), handle);
      UnlockCache(handle);
    }

    // A held handle reads as the file does, as far as the part was stored. What ends with the block is refused if its
    // length is odd, and so is what is too long to be rounded.
    method PalRead(handle: nat, at: nat, size: nat) returns (bytes: seq<byte>, loaded: bool)
      requires Valid() && handle in held
      requires handle in serving && at + size <= serving[handle].size
      modifies xms`errno
      ensures View() == old(View()) && Valid()
      ensures loaded <==> Moved(at, size, Rounded(serving[handle].size))
      ensures loaded ==> Reads(files, serving[handle], at, size, bytes)
    {
      hide Distinct, Accounted, Counted, Stored;
      ghost var i := HeldSlot(files, View(), 0, 0, handle);
      assert Loaded(files, View().slots[i], xms.blocks);
      RoundedUp(serving[handle].size);
      hide Rounded;
      BeginsThere(files, serving[handle], xms.blocks[handle], at, size);
      bytes, loaded := xms.Load(handle, at, size);
    }
  }

  // The first half of a file of 100 bytes is cached as whatever was in the block.
  method CacheShortFile(cache: FileCache, fd: int) returns (handle: nat, got: bool)
    requires cache.Valid() && fd in cache.files && |cache.files[fd]| == 100
    requires Find(cache.slots[..], Part(fd, 0, 50)) == 0
    requires NotFull(cache.slots[..], Part(fd, 0, 50))
    modifies cache.slots, cache.xms, cache`held, cache`idle, cache`serving, cache`failures
    ensures got && cache.failures == old(cache.failures) ==>
      && cache.Valid() && handle in cache.held && cache.serving[handle] == Part(fd, 0, 50)
      && handle in cache.xms.blocks && cache.xms.blocks[handle] == cache.xms.granted
  {
    hide Sound, Kept, Taken, Unavailable, Pinned, Stored, HeadThere, Older, Find;
    NothingOfShortFile(fd);
    handle, got := cache.PalCache(fd, 0, 50);
    if handle != 0 {
      WholeBlock(cache.xms.granted, cache.xms.blocks[handle], cache.files[fd], 0);
    }
  }

  lemma WholeBlock(was: seq<byte>, block: seq<byte>, file: seq<byte>, base: nat)
    requires Overwritten(was, block, file, base, 0)
    ensures block == was
  {
    assert block[0..] == block && was[0..] == was;
  }

  // Bytes of a part are those of its file, if they were stored.
  ghost predicate Reads(files: Files, part: Part, at: nat, size: nat, bytes: seq<byte>) {
    part.fd in files && |bytes| == size
    && (0 < size && at + size <= Stored(|files[part.fd]|, part) ==>
          bytes == files[part.fd][part.base + at..part.base + at + size])
  }

  lemma RoundedUp(size: nat)
    requires size <= ITEM_MAX
    ensures size <= Rounded(size)
  {
  }

  lemma BeginsThere(files: Files, part: Part, block: seq<byte>, at: nat, size: nat)
    requires part.fd in files && at + size <= |block|
    requires Begins(block, files[part.fd], part.base, Stored(|files[part.fd]|, part))
    ensures Reads(files, part, at, size, block[at..at + size])
  {
    hide StoredFrom;
    var n := Stored(|files[part.fd]|, part);
    if 0 < size && at + size <= n {
      assert block[at..at + size] == block[..n][at..at + size];
      SliceOfSlice(files[part.fd], part.base, part.base + n, at, at + size);
    }
  }

  // What is in the cache is not changed when it is loaded once more, but for a byte that was never stored.
  lemma Reloaded(files: Files, s: State, part: Part, blocks: map<nat, seq<byte>>)
    requires Sound(files, s, 0, 0) && Find(s.slots, part) != 0 && Fitting(files, part)
    requires var h := Find(s.slots, part);
      && h in s.blocks && h in blocks && blocks == s.blocks[h := blocks[h]]
      && Overwritten(s.blocks[h], blocks[h], files[part.fd], part.base, Stored(|files[part.fd]|, part))
    ensures var h := Find(s.slots, part);
      SameBut(s.blocks[h], blocks[h], Stored(|files[part.fd]|, part))
  {
    hide Rounded, Distinct, Stored, Accounted, Counted;
    FindMeans(s.slots, part);
    var h, n := Find(s.slots, part), Stored(|files[part.fd]|, part);
    var i :| 0 <= i < |s.slots| && s.slots[i].handle == h && PartOf(s.slots[i]) == part;
    assert Loaded(files, s.slots[i], s.blocks);
    var was, now := s.blocks[h], blocks[h];
    forall k | 0 <= k < |was| && k != n ensures was[k] == now[k] {
      if k < n {
        assert was[k] == was[..n][k] && now[k] == now[..n][k];
      } else {
        assert was[k] == was[n + 1..][k - (n + 1)] && now[k] == now[n + 1..][k - (n + 1)];
      }
    }
  }

  // Two blocks differ in one byte at most.
  ghost predicate SameBut(was: seq<byte>, now: seq<byte>, n: nat) {
    |now| == |was| && forall k | 0 <= k < |was| && k != n :: now[k] == was[k]
  }

  lemma HeldOrNot(files: Files, s: State, h: nat)
    requires Sound(files, s, 0, 0)
    ensures h in s.held ==> h != 0 && exists i | 0 <= i < |s.slots| :: s.slots[i].handle == h
    ensures forall i | 0 <= i < |s.slots| && s.slots[i].handle == h != 0 :: 0 < s.slots[i].locks <==> h in s.held
  {
    if h in s.held {
      var _ := HeldSlot(files, s, 0, 0, h);
    }
    forall i | 0 <= i < |s.slots| && s.slots[i].handle == h != 0 ensures 0 < s.slots[i].locks <==> h in s.held {
      assert Counted(s.slots[i], s.held, s.idle);
    }
  }

  lemma PlacedThere(slots: seq<Item>, u: seq<Item>, i: nat, item: Item)
    requires i < |u| && u[i].handle == 0 && forall j | 0 <= j < i :: u[j].handle != 0
    requires u == slots || (Dropped(slots, u, 0) && forall j | 0 <= j < |slots| :: slots[j].handle != 0)
    ensures Placed(slots, u[i := item], item)
  {
  }

  lemma NewSlot(files: Files, s: State, h: nat, i: nat, item: Item)
    requires Sound(files, s, h, 0) && h != 0 && i < |s.slots| && item.handle == h
    ensures Alone(s.slots[i := item], item)
  {
    assert s.slots[i := item][i] == item;
  }

  lemma Takes(slots: seq<Item>, u: seq<Item>, v: seq<Item>, t: seq<Item>, part: Part, h: nat, refused: nat)
    requires Allocation(slots, u, part.size, refused, true)
    requires Placed(u, v, Item(part.fd, part.base, part.size, h, 0)) && Pinned(v, t, h)
    ensures Taken(slots, t, part, h, refused)
  {
  }

  // The slot of a handle; one that was not found in the table has a single client.
  ghost predicate IsPinned(slots: seq<Item>, i: nat, part: Part, h: nat, found: nat) {
    i < |slots| && slots[i].handle == h != 0 && PartOf(slots[i]) == part && (found == 0 ==> slots[i].locks == 1)
  }

  // An item is in the table, and no other has its handle.
  ghost predicate Alone(slots: seq<Item>, item: Item) {
    exists i | 0 <= i < |slots| ::
      slots[i] == item && forall j | 0 <= j < |slots| && j != i :: slots[j].handle != item.handle
  }

  lemma OnlySlot(slots: seq<Item>, t: seq<Item>, item: Item)
    requires Alone(slots, item) && item.handle != 0 && item.locks == 0 && Pinned(slots, t, item.handle)
    ensures exists i: nat :: IsPinned(t, i, PartOf(item), item.handle, 0)
  {
    var i: nat :| i < |slots| && slots[i].handle == item.handle && t == slots[i := Locked(slots[i])];
    assert t[i] == item.(locks := 1);
    assert IsPinned(t, i, PartOf(item), item.handle, 0);
  }

  lemma StillPinned(slots: seq<Item>, t: seq<Item>, part: Part, h: nat)
    requires Pinned(slots, t, h) && h != 0
    requires exists i | 0 <= i < |slots| :: slots[i].handle == h && PartOf(slots[i]) == part
    ensures exists i: nat :: IsPinned(t, i, part, h, h)
  {
    var i :| 0 <= i < |slots| && slots[i].handle == h && PartOf(slots[i]) == part;
    assert IsPinned(t, i, part, h, h);
  }

  // A slot whose handle was given back.
  lemma StaleSlot(files: Files, s: State, i: nat)
    requires i < |s.slots| && s.slots[i].handle != 0 && s.slots[i].handle !in s.blocks
    ensures !Sound(files, s, 0, 0)
  {
  }

  // A block with some bytes stored behind the first ones.
  lemma StoredBehind(was: seq<byte>, block: seq<byte>, now: seq<byte>, file: seq<byte>, base: nat, pos: nat,
                     buff: seq<byte>)
    requires base + pos + |buff| <= |file| && buff == file[base + pos..base + pos + |buff|] && 0 < |buff|
    requires pos + Even(|buff|) <= |block| == |now| && Overwritten(was, block, file, base, pos)
    requires now[..pos + |buff|] == block[..pos] + buff
    requires now[pos + Even(|buff|)..] == block[pos + Even(|buff|)..]
    ensures Overwritten(was, now, file, base, pos + |buff|)
  {
    var n := pos + |buff|;
    assert file[base..base + n] == file[base..base + pos] + buff;
    forall k | n < k < |now| ensures now[k] == was[k] {
      assert now[k] == now[pos + Even(|buff|)..][k - (pos + Even(|buff|))] == block[k];
      assert block[k] == block[pos + 1..][k - (pos + 1)] == was[pos + 1..][k - (pos + 1)];
    }
  }

  lemma StoredFirst(length: nat, part: Part)
    ensures Stored(length, part)
      == if HeadThere(length, part) && 0 < part.size then StoredFrom(length, part, Head(part.base)) else 0
  {
    hide StoredFrom;
  }

  lemma StoredNext(length: nat, part: Part, pos: nat)
    requires part.base + pos <= length
    ensures part.size <= pos ==> StoredFrom(length, part, pos) == pos
    ensures pos < part.size <= pos + SECTOR ==>
      StoredFrom(length, part, pos)
      == if length < part.base + part.size || Refused(part, pos) then pos else part.size
    ensures pos + SECTOR < part.size ==>
      StoredFrom(length, part, pos)
      == if length < part.base + pos + SECTOR then pos else StoredFrom(length, part, pos + SECTOR)
  {
    hide Refused;
  }

  lemma RefusedMeans(part: Part, pos: nat)
    requires pos <= part.size
    ensures Refused(part, pos) <==> Rounded(part.size) < pos + Even(part.size - pos)
  {
  }

  lemma SectorFits(size: nat, pos: nat)
    requires size <= ITEM_MAX && pos + SECTOR < size
    ensures pos + Even(SECTOR) <= Rounded(size)
  {
  }

  lemma NothingStored(was: seq<byte>, file: seq<byte>, base: nat)
    ensures Overwritten(was, was, file, base, 0)
  {
  }

  lemma HeadFits(at: nat, size: nat)
    requires size <= ITEM_MAX
    ensures 0 < Head(at) == SECTOR - at % SECTOR <= SECTOR
    ensures size == 0 ==> Rounded(size) == 0
    ensures 0 < size ==> Even(Head(at)) <= Rounded(size)
  {
  }

  lemma FoundLive(files: Files, s: State, t: State, part: Part)
    requires Sound(files, t, 0, 0) && Find(s.slots, part) != 0
    requires |t.slots| == |s.slots| && forall i | 0 <= i < |t.slots| :: t.slots[i] == Aged(s.slots[i])
    ensures var h := Find(s.slots, part);
      && (exists i | 0 <= i < |t.slots| :: t.slots[i].handle == h && PartOf(t.slots[i]) == part)
      && h in t.blocks && |t.blocks[h]| == Rounded(part.size)
      && h in t.serving && t.serving[h] == part
  {
    hide Rounded, Distinct;
    FindMeans(s.slots, part);
    var h := Find(s.slots, part);
    var i :| 0 <= i < |s.slots| && s.slots[i].handle == h && PartOf(s.slots[i]) == part;
    assert t.slots[i].handle == h && PartOf(t.slots[i]) == part;
    assert Listed(files, t.slots[i], t.serving) && Loaded(files, t.slots[i], t.blocks);
  }

  lemma FreeingKeeps(files: Files, s: State, extra: nat)
    requires Sound(files, s, extra, 0) && extra != 0
    ensures Sound(files, s.(blocks := s.blocks - {extra}), 0, 0)
    ensures Kept(s, s.(blocks := s.blocks - {extra}))
  {
    AllKept(files, s, s.(blocks := s.blocks - {extra}), extra, 0);
    forall i | 0 <= i < |s.slots| && s.slots[i].handle != 0
      ensures Loaded(files, s.slots[i], s.blocks - {extra})
    {
      assert Loaded(files, s.slots[i], s.blocks);
    }
  }

  lemma StillKept(files: Files, s: State, t: State, raw: nat)
    requires Sound(files, s, 0, raw) && t.blocks.Keys == s.blocks.Keys && t.serving == s.serving
    ensures Kept(s, t)
  {
    AllKept(files, s, t, 0, raw);
  }

  lemma SizeInKilobytes(files: Files, part: Part)
    requires Fitting(files, part)
    ensures Rounded(part.size) == Kilobytes(part.size) * 1024
  {
  }

  lemma ExtraLive(files: Files, s: State, extra: nat)
    requires Sound(files, s, extra, 0) && extra != 0
    ensures extra in s.blocks
  {
  }

  lemma KeptTwice(s: State, t: State, u: State)
    requires Kept(s, t) && Kept(t, u) && t.held == s.held
    ensures Kept(s, u)
  {
  }

  lemma SameKept(s: State, t: State, u: State)
    requires Kept(s, t) && u.blocks.Keys == t.blocks.Keys && u.serving == t.serving
    ensures Kept(s, u)
  {
  }

  lemma NothingLost(files: Files, s: State, extra: nat)
    requires Sound(files, s, extra, 0)
    ensures Kept(s, s)
  {
    AllKept(files, s, s, extra, 0);
  }

  lemma GrowthKeeps(files: Files, s: State, h: nat, block: seq<byte>)
    requires Sound(files, s, 0, 0)
    ensures Kept(s, s.(blocks := s.blocks[h := block]))
  {
    AllKept(files, s, s, 0, 0);
  }

  // ----- Whole runs of the clients -----

  // Read and Discard name the request that cached the part.
  datatype Request = Cache(part: Part) | Read(ticket: nat, at: nat, size: nat) | Discard(ticket: nat)

  datatype Reply = Handle(handle: nat) | Data(bytes: seq<byte>) | Nothing

  // A part was cached by request t and not discarded before request k.
  ghost predicate Open(requests: seq<Request>, k: nat, t: nat)
    requires k <= |requests|
  {
    t < k && requests[t].Cache? && forall j | t < j < k :: requests[j] != Discard(t)
  }

  // Clients read and discard only what they hold, within the part.
  ghost predicate ProperAt(files: Files, requests: seq<Request>, k: nat)
    requires k < |requests|
  {
    match requests[k]
    case Cache(part) => Fitting(files, part)
    case Read(t, at, size) => Open(requests, k, t) && at + size <= requests[t].part.size
    case Discard(t) => Open(requests, k, t)
  }

  ghost predicate Proper(files: Files, requests: seq<Request>) {
    forall k | 0 <= k < |requests| :: ProperAt(files, requests, k)
  }

  ghost function HandleOf(replies: seq<Reply>, t: nat): nat {
    if t < |replies| && replies[t].Handle? then replies[t].handle else 0
  }

  // The handles of the first n requests that are still open before request k.
  ghost function Holdings(requests: seq<Request>, replies: seq<Reply>, k: nat, n: nat): multiset<nat>
    requires k <= |requests|
  {
    if n == 0 then multiset{}
    else if Open(requests, k, n - 1) && HandleOf(replies, n - 1) != 0
    then Holdings(requests, replies, k, n - 1) + multiset{HandleOf(replies, n - 1)}
    else Holdings(requests, replies, k, n - 1)
  }

  ghost predicate Closing(requests: seq<Request>, replies: seq<Reply>, k: nat)
    requires k < |requests|
  {
    requests[k].Discard? && Open(requests, k, requests[k].ticket) && HandleOf(replies, requests[k].ticket) != 0
  }

  lemma OpenNext(requests: seq<Request>, k: nat, t: nat)
    requires t < k < |requests|
    ensures Open(requests, k + 1, t) <==> Open(requests, k, t) && requests[k] != Discard(t)
  {
  }

  function With(h: multiset<nat>, x: nat, counted: bool): multiset<nat> { if counted then h + multiset{x} else h }

  function Without(h: multiset<nat>, y: nat): multiset<nat> { h - multiset{y} }

  lemma OneTaken(h: multiset<nat>, x: nat, y: nat, counted: bool)
    ensures y in h ==>
      y in With(h, x, counted) && Without(With(h, x, counted), y) == With(Without(h, y), x, counted)
  {
  }

  lemma LastTaken(h: multiset<nat>, x: nat)
    ensures x in With(h, x, true) && Without(With(h, x, true), x) == h == With(h, x, false)
  {
  }

  lemma HandleStays(replies: seq<Reply>, after: seq<Reply>, t: nat)
    requires t < |replies| <= |after| && after[..|replies|] == replies
    ensures HandleOf(after, t) == HandleOf(replies, t)
  {
  }

  // A handle counts on, unless its ticket is the one discarded.
  lemma CountsOn(requests: seq<Request>, replies: seq<Reply>, after: seq<Reply>, k: nat, t: nat)
    requires t < k < |requests| && |replies| == k <= |after| && after[..k] == replies
    requires !Closing(requests, replies, k) || t != requests[k].ticket
    ensures HandleOf(after, t) == HandleOf(replies, t)
    ensures HandleOf(replies, t) != 0 ==> (Open(requests, k + 1, t) <==> Open(requests, k, t))
  {
    HandleStays(replies, after, t);
    hide HandleOf;
    if requests[k] == Discard(t) {
      assert !Open(requests, k, t) || HandleOf(replies, t) == 0;
    }
    hide Closing, Open;
    OpenNext(requests, k, t);
  }

  // The discard of a ticket takes its handle off what the first n requests hold; nothing else changes that.
  lemma {:induction false} HoldingsSame(requests: seq<Request>, replies: seq<Reply>, after: seq<Reply>, k: nat, n: nat)
    requires n <= k < |requests| && |replies| == k <= |after| && after[..k] == replies
    requires !Closing(requests, replies, k) || n <= requests[k].ticket
    ensures Holdings(requests, after, k + 1, n) == Holdings(requests, replies, k, n)
  {
    if n != 0 {
      hide *;
      HoldingsSame(requests, replies, after, k, n - 1);
      HoldingsStep(requests, replies, k, n);
      HoldingsStep(requests, after, k + 1, n);
      CountsOn(requests, replies, after, k, n - 1);
    }
  }

  lemma {:induction false} HoldingsLess(requests: seq<Request>, replies: seq<Reply>, after: seq<Reply>, k: nat, n: nat)
    requires n <= k < |requests| && |replies| == k <= |after| && after[..k] == replies
    requires Closing(requests, replies, k) && requests[k].ticket < n
    ensures var y := HandleOf(replies, requests[k].ticket);
      y in Holdings(requests, replies, k, n)
      && Holdings(requests, after, k + 1, n) == Without(Holdings(requests, replies, k, n), y)
  {
    hide *;
    ClosingMeans(requests, replies, k);
    var h, x := Holdings(requests, replies, k, n - 1), HandleOf(replies, n - 1);
    HoldingsStep(requests, replies, k, n);
    HoldingsStep(requests, after, k + 1, n);
    if requests[k].ticket == n - 1 {
      HandleStays(replies, after, n - 1);
      OpenNext(requests, k, n - 1);
      HoldingsSame(requests, replies, after, k, n - 1);
      LastTaken(h, x);
    } else {
      CountsOn(requests, replies, after, k, n - 1);
      HoldingsLess(requests, replies, after, k, n - 1);
      OneTaken(h, x, HandleOf(replies, requests[k].ticket), Open(requests, k, n - 1) && x != 0);
    }
  }

  lemma HoldingsKept(requests: seq<Request>, replies: seq<Reply>, reply: Reply, k: nat)
    requires k < |requests| && |replies| == k
    ensures var h := Holdings(requests, replies, k, k);
      if Closing(requests, replies, k)
      then HandleOf(replies, requests[k].ticket) in h
        && Holdings(requests, replies + [reply], k + 1, k) == h - multiset{HandleOf(replies, requests[k].ticket)}
      else Holdings(requests, replies + [reply], k + 1, k) == h
  {
    ClosingMeans(requests, replies, k);
    hide Holdings, Open, Closing, HandleOf;
    assert (replies + [reply])[..k] == replies;
    if Closing(requests, replies, k) {
      TicketBefore(requests, k);
      HoldingsLess(requests, replies, replies + [reply], k, k);
    } else {
      HoldingsSame(requests, replies, replies + [reply], k, k);
    }
  }

  lemma TicketBefore(requests: seq<Request>, k: nat)
    requires k < |requests| && requests[k].Discard? && Open(requests, k, requests[k].ticket)
    ensures requests[k].ticket < k
  {
  }

  lemma HoldingsStep(requests: seq<Request>, replies: seq<Reply>, k: nat, n: nat)
    requires k <= |requests| && n > 0
    ensures var x := HandleOf(replies, n - 1);
      Holdings(requests, replies, k, n)
      == With(Holdings(requests, replies, k, n - 1), x, Open(requests, k, n - 1) && x != 0)
  {
    hide Open, HandleOf;
  }

  lemma ClosingMeans(requests: seq<Request>, replies: seq<Reply>, k: nat)
    requires k < |requests|
    ensures Closing(requests, replies, k) <==>
      requests[k].Discard? && Open(requests, k, requests[k].ticket) && HandleOf(replies, requests[k].ticket) != 0
  {
  }

  lemma {:induction false} HoldingsFrame(requests: seq<Request>, replies: seq<Reply>, reply: Reply, k: nat, n: nat)
    requires k <= |requests| && n <= |replies|
    ensures Holdings(requests, replies + [reply], k, n) == Holdings(requests, replies, k, n)
  {
    hide Open;
    if n != 0 {
      HoldingsFrame(requests, replies, reply, k, n - 1);
      assert HandleOf(replies + [reply], n - 1) == HandleOf(replies, n - 1);
    }
  }

  lemma {:induction false} HoldingsCount(requests: seq<Request>, replies: seq<Reply>, k: nat, n: nat)
    requires k <= |requests|
    ensures forall t | 0 <= t < n && Open(requests, k, t) && HandleOf(replies, t) != 0 ::
      HandleOf(replies, t) in Holdings(requests, replies, k, n)
  {
    if n != 0 {
      HoldingsCount(requests, replies, k, n - 1);
    }
  }

  // Request j gives a handle back.
  ghost predicate Releases(requests: seq<Request>, replies: seq<Reply>, j: nat, h: nat)
    requires j < |requests|
  {
    requests[j].Discard? && requests[j].ticket < j && HandleOf(replies, requests[j].ticket) == h
  }

  // The last request before k that gave a handle back, or -1.
  ghost function LastRelease(requests: seq<Request>, replies: seq<Reply>, k: nat, h: nat): (r: int)
    requires k <= |requests|
    ensures -1 <= r < k && (0 <= r ==> Releases(requests, replies, r, h))
    ensures forall j | r < j < k :: !Releases(requests, replies, j, h)
  {
    if k == 0 then -1
    else if Releases(requests, replies, k - 1, h) then k - 1
    else LastRelease(requests, replies, k - 1, h)
  }

  // How many of some requests asked for a part.
  ghost function CacheCalls(requests: seq<Request>, from: nat, to: nat): nat
    requires from <= to <= |requests|
  {
    if from == to then 0 else CacheCalls(requests, from, to - 1) + if requests[to - 1].Cache? then 1 else 0
  }

  // How many requests for parts came since a handle was given back for the last time; if that was before
  // the run, those of the run are added to what it was idle before.
  ghost predicate IdleFor(requests: seq<Request>, replies: seq<Reply>, k: nat, start: map<nat, nat>, h: nat, n: nat)
    requires k <= |requests|
  {
    var r := LastRelease(requests, replies, k, h);
    if 0 <= r then n == CacheCalls(requests, r + 1, k)
    else h in start && n == start[h] + CacheCalls(requests, 0, k)
  }

  // The age of a block nobody holds is the number of requests for parts since it was released.
  ghost predicate AgeKnown(requests: seq<Request>, replies: seq<Reply>, k: nat, start: map<nat, nat>, item: Item)
    requires k <= |requests|
  {
    exists n: nat :: IdleFor(requests, replies, k, start, item.handle, n) && item.locks == Age(n)
  }

  ghost predicate IdleKnown(requests: seq<Request>, replies: seq<Reply>, k: nat, start: map<nat, nat>,
                            held: multiset<nat>, idle: map<nat, nat>)
    requires k <= |requests|
  {
    forall h | h in idle && h !in held && h != 0 :: IdleFor(requests, replies, k, start, h, idle[h])
  }

  // Before request k: what the clients hold is what they opened, and it stands for what they asked for;
  // what nobody holds is as old as it should be.
  ghost predicate Served(requests: seq<Request>, replies: seq<Reply>, k: nat, start: map<nat, nat>, s: State)
    requires k <= |requests|
  {
    && s.held == Holdings(requests, replies, k, k)
    && (forall t | 0 <= t < k && Open(requests, k, t) && HandleOf(replies, t) != 0 ::
          HandleOf(replies, t) in s.serving && s.serving[HandleOf(replies, t)] == requests[t].part)
    && IdleKnown(requests, replies, k, start, s.held, s.idle)
  }

  ghost predicate Answered(files: Files, requests: seq<Request>, replies: seq<Reply>, k: nat)
    requires k < |requests|
  {
    var r := requests[k];
    && (r.Cache? ==> k < |replies| && replies[k].Handle?)
    && (r.Read? && r.ticket < k && requests[r.ticket].Cache? && HandleOf(replies, r.ticket) != 0 ==>
          && k < |replies|
          && if Moved(r.at, r.size, Rounded(requests[r.ticket].part.size))
             then replies[k].Data? && Reads(files, requests[r.ticket].part, r.at, r.size, replies[k].bytes)
             else replies[k].Nothing?)
  }

  // Sixteen different blocks are held before request k.
  ghost predicate Crowded(requests: seq<Request>, replies: seq<Reply>, k: nat)
    requires k <= |requests|
  {
    exists hs: seq<nat> :: AllHeld(hs, Holdings(requests, replies, k, k))
  }

  ghost predicate AllHeld(hs: seq<nat>, held: multiset<nat>) {
    && |hs| == MAX_ITEMS && (forall i, j | 0 <= i < j < |hs| :: hs[i] != hs[j])
    && forall i | 0 <= i < |hs| :: hs[i] in held
  }

  // A part is turned away only when sixteen others are held.
  ghost predicate Fair(requests: seq<Request>, replies: seq<Reply>, k: nat)
    requires k < |requests|
  {
    requests[k].Cache? && HandleOf(replies, k) == 0 ==> Crowded(requests, replies, k)
  }

  lemma AllPinnedHeld(files: Files, s: State)
    requires Sound(files, s, 0, 0) && AllPinned(s.slots)
    ensures exists hs: seq<nat> :: AllHeld(hs, s.held)
  {
    var hs := seq(MAX_ITEMS, i requires 0 <= i < MAX_ITEMS => s.slots[i].handle);
    forall i | 0 <= i < |hs| ensures hs[i] in s.held {
      assert Counted(s.slots[i], s.held, s.idle);
    }
    assert AllHeld(hs, s.held);
  }

  // Every request so far is answered; none in vain if the driver granted what it was asked for.
  ghost predicate Replied(files: Files, requests: seq<Request>, replies: seq<Reply>, k: nat, granted: bool)
    requires k <= |requests|
  {
    && (forall j | 0 <= j < k :: Answered(files, requests, replies, j))
    && (granted ==> forall j | 0 <= j < k :: Fair(requests, replies, j))
  }

  lemma RepliedNext(files: Files, requests: seq<Request>, replies: seq<Reply>, reply: Reply, k: nat, granted: bool,
                    now: bool)
    requires k < |requests| && |replies| == k && Replied(files, requests, replies, k, granted)
    requires Answered(files, requests, replies + [reply], k) && (now ==> granted)
    requires now ==> Fair(requests, replies + [reply], k)
    ensures Replied(files, requests, replies + [reply], k + 1, now)
  {
    hide Answered, Fair;
    forall j | 0 <= j < k ensures Answered(files, requests, replies + [reply], j) {
      AnsweredStays(files, requests, replies, reply, j);
    }
    if now {
      forall j | 0 <= j < k ensures Fair(requests, replies + [reply], j) {
        FairStays(requests, replies, reply, j);
      }
    }
  }

  lemma FairStays(requests: seq<Request>, replies: seq<Reply>, reply: Reply, k: nat)
    requires k < |requests| && k < |replies| && Fair(requests, replies, k)
    ensures Fair(requests, replies + [reply], k)
  {
    HoldingsFrame(requests, replies, reply, k, k);
  }

  lemma {:induction false} LastReleaseKept(requests: seq<Request>, replies: seq<Reply>, reply: Reply, n: nat, h: nat)
    requires n <= |requests| && n <= |replies|
    ensures LastRelease(requests, replies + [reply], n, h) == LastRelease(requests, replies, n, h)
  {
    if n != 0 {
      LastReleaseKept(requests, replies, reply, n - 1, h);
      assert Releases(requests, replies + [reply], n - 1, h) <==> Releases(requests, replies, n - 1, h);
    }
  }

  // One request more for a handle it does not give back.
  lemma IdleOneMore(requests: seq<Request>, replies: seq<Reply>, reply: Reply, k: nat, start: map<nat, nat>, h: nat,
                    n: nat)
    requires k < |requests| && |replies| == k && IdleFor(requests, replies, k, start, h, n)
    requires !Releases(requests, replies, k, h)
    ensures IdleFor(requests, replies + [reply], k + 1, start, h, n + if requests[k].Cache? then 1 else 0)
  {
    LastReleaseKept(requests, replies, reply, k, h);
    assert Releases(requests, replies + [reply], k, h) <==> Releases(requests, replies, k, h);
    assert LastRelease(requests, replies + [reply], k + 1, h) == LastRelease(requests, replies, k, h);
  }

  // The request that gives it back.
  lemma IdleFromNow(requests: seq<Request>, replies: seq<Reply>, reply: Reply, k: nat, start: map<nat, nat>, h: nat)
    requires k < |requests| && |replies| == k && Releases(requests, replies, k, h)
    ensures IdleFor(requests, replies + [reply], k + 1, start, h, 0)
  {
    assert Releases(requests, replies + [reply], k, h);
  }

  // In every state a run comes to, the counter of a block nobody holds is its age.
  lemma AgesAreKnown(files: Files, s: State, requests: seq<Request>, replies: seq<Reply>, k: nat, start: map<nat, nat>)
    requires Sound(files, s, 0, 0) && k <= |requests| && Served(requests, replies, k, start, s)
    ensures forall i | 0 <= i < |s.slots| && s.slots[i].handle != 0 && s.slots[i].handle !in s.held ::
      AgeKnown(requests, replies, k, start, s.slots[i])
  {
    hide IdleFor;
    forall i | 0 <= i < |s.slots| && s.slots[i].handle != 0 && s.slots[i].handle !in s.held
      ensures AgeKnown(requests, replies, k, start, s.slots[i])
    {
      assert Counted(s.slots[i], s.held, s.idle);
      assert IdleFor(requests, replies, k, start, s.slots[i].handle, s.idle[s.slots[i].handle]);
    }
  }

  // How many of the first n requests are for a part and still open before request k.
  ghost function OpenCount(requests: seq<Request>, k: nat, n: nat, part: Part): nat
    requires n <= k <= |requests|
  {
    if n == 0 then 0
    else OpenCount(requests, k, n - 1, part)
         + if Open(requests, k, n - 1) && requests[n - 1].part == part then 1 else 0
  }

  // No part is asked for while it is open as often as a lock counter can count.
  ghost predicate FewOpen(requests: seq<Request>) {
    forall k | 0 <= k < |requests| && requests[k].Cache? ::
      OpenCount(requests, k, k, requests[k].part) < LOCKS_MAX
  }

  // A handle is held at most as often as its part is open.
  lemma {:induction false} HeldCount(requests: seq<Request>, replies: seq<Reply>, k: nat, n: nat, h: nat, part: Part)
    requires n <= k <= |requests| && h != 0
    requires forall t | 0 <= t < n && Open(requests, k, t) && HandleOf(replies, t) == h :: requests[t].part == part
    ensures Holdings(requests, replies, k, n)[h] <= OpenCount(requests, k, n, part)
  {
    hide Open, HandleOf;
    if n != 0 {
      HeldCount(requests, replies, k, n - 1, h, part);
    }
  }

  lemma FewLocks(files: Files, s: State, requests: seq<Request>, replies: seq<Reply>, k: nat, start: map<nat, nat>)
    requires Sound(files, s, 0, 0) && k < |requests| && Served(requests, replies, k, start, s)
    requires requests[k].Cache? && OpenCount(requests, k, k, requests[k].part) < LOCKS_MAX
    ensures NotFull(s.slots, requests[k].part)
  {
    hide Open, Holdings, OpenCount, IdleKnown, Loaded, Accounted, Distinct;
    var part := requests[k].part;
    forall i | 0 <= i < |s.slots| && s.slots[i].handle != 0 && PartOf(s.slots[i]) == part
      ensures s.slots[i].locks < LOCKS_MAX
    {
      assert Counted(s.slots[i], s.held, s.idle) && Listed(files, s.slots[i], s.serving);
      HeldCount(requests, replies, k, k, s.slots[i].handle, part);
    }
  }

  lemma AnsweredStays(files: Files, requests: seq<Request>, replies: seq<Reply>, reply: Reply, k: nat)
    requires k < |replies| && k < |requests| && Answered(files, requests, replies, k)
    ensures Answered(files, requests, replies + [reply], k)
  {
  }

  // The request is not answered if its part was not loaded.
  method ServeOne(cache: FileCache, requests: seq<Request>, replies: seq<Reply>, k: nat, ghost start: map<nat, nat>)
    returns (reply: Reply, more: bool)
    requires cache.Valid() && Proper(cache.files, requests) && FewOpen(requests) && k < |requests| && |replies| == k
    requires Served(requests, replies, k, start, cache.View())
    modifies cache, cache.slots, cache.xms
    ensures old(cache.failures) <= cache.failures && old(cache.xms.refusals) <= cache.xms.refusals
    ensures !more ==> StopsAt(cache.files, requests, k, cache.failures != old(cache.failures))
    ensures more ==>
      && cache.Valid() && Served(requests, replies + [reply], k + 1, start, cache.View())
      && Answered(cache.files, requests, replies + [reply], k)
      && (cache.xms.refusals == old(cache.xms.refusals) ==> Fair(requests, replies + [reply], k))
  {
    hide Sound, Served, Crowded, StopsAt, OpenCount;
    assert ProperAt(cache.files, requests, k);
    more := true;
    match requests[k] {
      case Cache(part) => reply, more := ServeCache(cache, requests, replies, k, start);
      case Read(t, at, size) => reply := ServeRead(cache, requests, replies, k, start);
      case Discard(t) => reply := ServeDiscard(cache, requests, replies, k, start);
    }
  }

  // Only a read that failed, or a part that does not begin with a whole sector, ends a run.
  ghost predicate StopsAt(files: Files, requests: seq<Request>, k: nat, failed: bool) {
    && k < |requests| && requests[k].Cache? && requests[k].part.fd in files
    && (failed || !HeadThere(|files[requests[k].part.fd]|, requests[k].part))
  }

  method ServeCache(cache: FileCache, requests: seq<Request>, replies: seq<Reply>, k: nat, ghost start: map<nat, nat>)
    returns (reply: Reply, more: bool)
    requires cache.Valid() && k < |requests| && |replies| == k
    requires requests[k].Cache? && Fitting(cache.files, requests[k].part)
    requires OpenCount(requests, k, k, requests[k].part) < LOCKS_MAX
    requires Served(requests, replies, k, start, cache.View())
    modifies cache, cache.slots, cache.xms
    ensures old(cache.failures) <= cache.failures && old(cache.xms.refusals) <= cache.xms.refusals
    ensures !more ==> StopsAt(cache.files, requests, k, cache.failures != old(cache.failures))
    ensures more ==>
      && cache.Valid() && reply.Handle?
      && Served(requests, replies + [reply], k + 1, start, cache.View())
      && (cache.xms.refusals == old(cache.xms.refusals) ==> Fair(requests, replies + [reply], k))
  {
    hide Sound, Kept, Older, IdleKnown, AllPinned, Pinned, Taken, Open, HeadThere, Overwritten, AllAged, OpenCount;
    hide NotFull;
    var part := requests[k].part;
    ghost var s := cache.View();
    FewLocks(cache.files, s, requests, replies, k, start);
    var handle, got := cache.PalCache(part.fd, part.base, part.size);
    reply := Handle(handle);
    more := !got || handle != 0;
    if more {
      CacheServed(requests, replies, handle, k, start, s, cache.View());
      if handle == 0 {
        HoldingsFrame(requests, replies, reply, k, k);
        if cache.xms.refusals == old(cache.xms.refusals) {
          AllPinnedHeld(cache.files, cache.View());
        }
      }
    }
  }

  method ServeRead(cache: FileCache, requests: seq<Request>, replies: seq<Reply>, k: nat, ghost start: map<nat, nat>)
    returns (reply: Reply)
    requires cache.Valid() && k < |requests| && |replies| == k
    requires requests[k].Read? && ProperAt(cache.files, requests, k)
    requires Served(requests, replies, k, start, cache.View())
    modifies cache.xms`errno
    ensures cache.Valid()
    ensures Served(requests, replies + [reply], k + 1, start, cache.View())
    ensures Answered(cache.files, requests, replies + [reply], k)
  {
    hide Sound, IdleKnown, Rounded;
    var t, at, size := requests[k].ticket, requests[k].at, requests[k].size;
    ghost var s := cache.View();
    HoldingsCount(requests, replies, k, k);
    reply := Nothing;
    if replies[t].Handle? && replies[t].handle != 0 {
      var bytes, loaded := cache.PalRead(replies[t].handle, at, size);
      if loaded {
        reply := Data(bytes);
      }
    }
    OtherServed(requests, replies, reply, k, start, s);
  }

  method ServeDiscard(cache: FileCache, requests: seq<Request>, replies: seq<Reply>, k: nat, ghost start: map<nat, nat>)
    returns (reply: Reply)
    requires cache.Valid() && k < |requests| && |replies| == k
    requires requests[k].Discard? && Open(requests, k, requests[k].ticket)
    requires Served(requests, replies, k, start, cache.View())
    modifies cache, cache.slots
    ensures cache.Valid() && cache.failures == old(cache.failures)
    ensures Served(requests, replies + [reply], k + 1, start, cache.View())
  {
    hide Sound, IdleKnown;
    var t := requests[k].ticket;
    ghost var s := cache.View();
    HoldingsCount(requests, replies, k, k);
    if replies[t].Handle? {
      cache.PalDiscard(replies[t].handle);
    }
    reply := Nothing;
    OtherServed(requests, replies, reply, k, start, s);
  }

  lemma CacheServed(requests: seq<Request>, replies: seq<Reply>, handle: nat, k: nat, start: map<nat, nat>, s: State,
                    t: State)
    requires k < |requests| && |replies| == k && Served(requests, replies, k, start, s) && requests[k].Cache?
    requires Kept(s, t)
    requires t.held == if handle == 0 then s.held else s.held + multiset{handle}
    requires handle != 0 ==> handle in t.serving && t.serving[handle] == requests[k].part
    requires t.idle == Older(s.idle) || (handle != 0 && t.idle == Older(s.idle)[handle := 0])
    ensures Served(requests, replies + [Handle(handle)], k + 1, start, t)
  {
    hide IdleKnown, Older;
    var after := replies + [Handle(handle)];
    HoldingsCount(requests, replies, k, k);
    HoldingsKept(requests, replies, Handle(handle), k);
    assert Open(requests, k + 1, k);
    forall j | 0 <= j < k + 1 && Open(requests, k + 1, j) && HandleOf(after, j) != 0
      ensures HandleOf(after, j) in t.serving && t.serving[HandleOf(after, j)] == requests[j].part
    {
      if j < k {
        OpenNext(requests, k, j);
        assert HandleOf(after, j) == HandleOf(replies, j);
      }
    }
    CacheAges(requests, replies, handle, k, start, s, t);
  }

  lemma CacheAges(requests: seq<Request>, replies: seq<Reply>, handle: nat, k: nat, start: map<nat, nat>, s: State,
                  t: State)
    requires k < |requests| && |replies| == k && requests[k].Cache?
    requires IdleKnown(requests, replies, k, start, s.held, s.idle)
    requires t.held == if handle == 0 then s.held else s.held + multiset{handle}
    requires t.idle == Older(s.idle) || (handle != 0 && t.idle == Older(s.idle)[handle := 0])
    ensures IdleKnown(requests, replies + [Handle(handle)], k + 1, start, t.held, t.idle)
  {
    hide IdleFor;
    forall h | h in t.idle && h !in t.held && h != 0
      ensures IdleFor(requests, replies + [Handle(handle)], k + 1, start, h, t.idle[h])
    {
      IdleOneMore(requests, replies, Handle(handle), k, start, h, s.idle[h]);
    }
  }

  // What a request other than for a part leaves of a state.
  ghost function After(requests: seq<Request>, replies: seq<Reply>, k: nat, s: State): State
    requires k < |requests|
  {
    if Closing(requests, replies, k) then
      var h := HandleOf(replies, requests[k].ticket);
      s.(held := s.held - multiset{h}, idle := Released(s.held, s.idle, h))
    else s
  }

  lemma OtherServed(requests: seq<Request>, replies: seq<Reply>, reply: Reply, k: nat, start: map<nat, nat>, s: State)
    requires k < |requests| && |replies| == k && Served(requests, replies, k, start, s) && !requests[k].Cache?
    requires requests[k].Discard? ==> Open(requests, k, requests[k].ticket)
    ensures Served(requests, replies + [reply], k + 1, start, After(requests, replies, k, s))
  {
    hide IdleKnown, Released;
    HoldingsKept(requests, replies, reply, k);
    assert !Open(requests, k + 1, k);
    forall j | 0 <= j < k + 1 && Open(requests, k + 1, j)
      ensures Open(requests, k, j) && HandleOf(replies + [reply], j) == HandleOf(replies, j)
    {
    }
    OtherAges(requests, replies, reply, k, start, s);
  }

  lemma OtherAges(requests: seq<Request>, replies: seq<Reply>, reply: Reply, k: nat, start: map<nat, nat>, s: State)
    requires k < |requests| && |replies| == k && !requests[k].Cache?
    requires IdleKnown(requests, replies, k, start, s.held, s.idle)
    requires requests[k].Discard? ==> Open(requests, k, requests[k].ticket)
    requires Closing(requests, replies, k) ==> HandleOf(replies, requests[k].ticket) in s.held
    ensures var t := After(requests, replies, k, s);
      IdleKnown(requests, replies + [reply], k + 1, start, t.held, t.idle)
  {
    hide IdleFor, Open;
    var t := After(requests, replies, k, s);
    forall h | h in t.idle && h !in t.held && h != 0
      ensures IdleFor(requests, replies + [reply], k + 1, start, h, t.idle[h])
    {
      if Releases(requests, replies, k, h) {
        IdleFromNow(requests, replies, reply, k, start, h);
      } else {
        IdleOneMore(requests, replies, reply, k, start, h, s.idle[h]);
      }
    }
  }

  // Whatever the clients do, and whatever the driver grants: every read of a part that was cached and not
  // discarded yields the bytes of the file, as far as it has whole sectors to store; a part is turned away only if
  // the driver refused memory or sixteen blocks are held; and the counter of every block nobody holds is the number
  // of requests since. A run ends early only where a read failed or a part does not begin with a whole sector.
  method Serve(cache: FileCache, requests: seq<Request>) returns (replies: seq<Reply>)
    requires cache.Valid() && cache.held == multiset{}
    requires Proper(cache.files, requests) && FewOpen(requests)
    modifies cache, cache.slots, cache.xms
    ensures old(cache.failures) <= cache.failures
    ensures |replies| <= |requests|
    ensures |replies| < |requests| ==>
      StopsAt(cache.files, requests, |replies|, cache.failures != old(cache.failures))
    ensures forall k | 0 <= k < |replies| :: Answered(cache.files, requests, replies, k)
    ensures cache.xms.refusals == old(cache.xms.refusals) ==>
      forall k | 0 <= k < |replies| :: Fair(requests, replies, k)
    ensures |replies| == |requests| ==>
      && cache.Valid()
      && forall i | 0 <= i < cache.slots.Length && cache.slots[i].handle != 0
                    && cache.slots[i].handle !in cache.held ::
           AgeKnown(requests, replies, |requests|, old(cache.idle), cache.slots[i])
  {
    hide *;
    replies := [];
    var more := true;
    ghost var start := cache.idle;
    ViewIs(cache);
    NothingServed(cache.files, requests, cache.View());
    while |replies| < |requests| && more
      invariant |replies| <= |requests| && (!more ==> |replies| < |requests|)
      invariant old(cache.failures) <= cache.failures && old(cache.xms.refusals) <= cache.xms.refusals
      invariant more ==> cache.Valid() && Served(requests, replies, |replies|, start, cache.View())
      invariant !more ==> StopsAt(cache.files, requests, |replies|, cache.failures != old(cache.failures))
      invariant Replied(cache.files, requests, replies, |replies|, cache.xms.refusals == old(cache.xms.refusals))
      decreases |requests| - |replies|, more
    {
      var k, reply := |replies|, Nothing;
      ghost var granted := cache.xms.refusals == old(cache.xms.refusals);
      reply, more := ServeOne(cache, requests, replies, k, start);
      ghost var now := cache.xms.refusals == old(cache.xms.refusals);
      if more {
        RepliedNext(cache.files, requests, replies, reply, k, granted, now);
        replies := replies + [reply];
      } else {
        RepliedStill(cache.files, requests, replies, k, granted, now);
        StopsStill(cache.files, requests, k);
      }
    }
    RepliedMeans(cache.files, requests, replies, |replies|, cache.xms.refusals == old(cache.xms.refusals));
    if more {
      ViewIs(cache);
      AgesAreKnown(cache.files, cache.View(), requests, replies, |requests|, start);
    }
  }

  lemma ViewIs(cache: FileCache)
    ensures cache.View().slots == cache.slots[..] && cache.View().held == cache.held
    ensures cache.View().idle == cache.idle && (cache.Valid() ==> Sound(cache.files, cache.View(), 0, 0))
  {
    hide Sound;
  }

  lemma NothingServed(files: Files, requests: seq<Request>, s: State)
    requires s.held == multiset{}
    ensures Served(requests, [], 0, s.idle, s) && Replied(files, requests, [], 0, true)
  {
    hide Answered, Fair;
  }

  lemma RepliedMeans(files: Files, requests: seq<Request>, replies: seq<Reply>, k: nat, granted: bool)
    requires k <= |requests| && Replied(files, requests, replies, k, granted)
    ensures forall j | 0 <= j < k :: Answered(files, requests, replies, j)
    ensures granted ==> forall j | 0 <= j < k :: Fair(requests, replies, j)
  {
    hide Answered, Fair;
  }

  lemma StopsStill(files: Files, requests: seq<Request>, k: nat)
    ensures StopsAt(files, requests, k, false) ==> StopsAt(files, requests, k, true)
  {
  }

  lemma RepliedStill(files: Files, requests: seq<Request>, replies: seq<Reply>, k: nat, granted: bool, now: bool)
    requires k <= |requests| && Replied(files, requests, replies, k, granted) && (now ==> granted)
    ensures Replied(files, requests, replies, k, now)
  {
  }
}
