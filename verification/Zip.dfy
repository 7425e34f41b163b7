/** The archive reader (player/src/pal/_zip/zip.c) over the bytes of a bundle.

  A bundle is any executable followed by a ZIP file (APPNOTE.TXT, sections 4.3.7, 4.3.12
  and 4.3.16) with stored entries. What is read from a directory that is cut short is
  undefined in the original; here it is the error Overrun.
*/
module Zip {
  import opened Bits
  import opened Bytes
  import Crc

  const PK: nat := 0x4B50
  const LOCAL: nat := 0x0403
  const FILE: nat := 0x0201
  const END: nat := 0x0605
  const STORED: nat := 0
  const LANGUAGE: nat := 0x0800
  const LOCAL_SIZE: nat := 30
  const FILE_SIZE: nat := 46
  const END_SIZE: nat := 22

  // Hosts whose file names are compared without regard to case: MS-DOS, NTFS and VFAT.
  const FOLDING: set<nat> := {0, 10, 14}

  datatype Failure = InvalidState | Unreadable | NotZip | TooBig | NotFound | Unsupported | Damaged | Overrun

  datatype Result<T> = Ok(value: T) | Err(error: Failure)

  // ----- Reading -----

  function Field(s: seq<byte>, at: nat, n: nat): nat
    requires at + n <= |s|
  {
    LittleEndian(s[at..at + n])
  }

  function ReadAt(file: seq<byte>, at: int, n: nat): Result<seq<byte>> {
    if 0 <= at && at + n <= |file| then Ok(file[at..at + n]) else Err(Unreadable)
  }

  // The directory with its end record, and where in the file the offsets are counted from.
  datatype Directory = Directory(bytes: seq<byte>, base: int)

  function DirectoryOf(file: seq<byte>): Result<Directory> {
    match ReadAt(file, |file| - END_SIZE, END_SIZE)
    case Err(e) => Err(e)
    case Ok(end) =>
      var size, offset := Field(end, 12, 4), Field(end, 16, 4);
      if Field(end, 0, 2) != PK || Field(end, 2, 2) != END then Err(NotZip)
      else if 0xFFFF < size then Err(TooBig)
      else
        match ReadAt(file, |file| - (size + END_SIZE), size + END_SIZE)
        case Err(e) => Err(e)
        case Ok(bytes) => Ok(Directory(bytes, |file| - ((offset + size) % 0x1_0000_0000 + END_SIZE)))
  }

  // Whether a whole file header with its name is at an offset of the directory.
  predicate Fits(bytes: seq<byte>, at: nat) {
    at + FILE_SIZE <= |bytes| && at + FILE_SIZE + Field(bytes, at + 28, 2) <= |bytes|
  }

  function NameAt(bytes: seq<byte>, at: nat): seq<byte>
    requires Fits(bytes, at)
  {
    bytes[at + FILE_SIZE..at + FILE_SIZE + Field(bytes, at + 28, 2)]
  }

  function NextAt(bytes: seq<byte>, at: nat): (next: nat)
    requires Fits(bytes, at)
    ensures at < next
  {
    at + FILE_SIZE + Field(bytes, at + 28, 2) + Field(bytes, at + 30, 2) + Field(bytes, at + 32, 2)
  }

  // How an enumeration ends: the visitor stops it at a header, it comes to the end, or it fails.
  datatype Walked = Stopped(at: nat, count: nat) | Through(count: nat) | Failed(error: Failure)

  function After(w: Walked): Walked {
    match w
    case Stopped(at, count) => Stopped(at, count + 1)
    case Through(count) => Through(count + 1)
    case Failed(e) => Failed(e)
  }

  function Walk(bytes: seq<byte>, at: nat, go: nat -> bool): (w: Walked)
    ensures w.Stopped? ==> Fits(bytes, w.at) && !go(w.at)
    decreases if at <= |bytes| then |bytes| - at else 0
  {
    if |bytes| < at + 4 then Failed(Overrun)
    else if Field(bytes, at, 2) != PK then Failed(NotZip)
    else if Field(bytes, at + 2, 2) == END then Through(0)
    else if Field(bytes, at + 2, 2) != FILE then Failed(NotZip)
    else if !Fits(bytes, at) then Failed(Overrun)
    else if !go(at) then Stopped(at, 0)
    else After(Walk(bytes, NextAt(bytes, at), go))
  }

  // The comparison for the hosts that fold case is given from outside.
  type Folded = (seq<byte>, seq<byte>, nat) -> bool

  predicate Matches(bytes: seq<byte>, at: nat, name: seq<byte>, folded: Folded) {
    Fits(bytes, at)
    && if Field(bytes, at + 4, 2) / 0x100 in FOLDING then folded(name, bytes, at) else NameAt(bytes, at) == name
  }

  function FoundBy(bytes: seq<byte>, w: Walked): Result<nat>
    requires w.Stopped? ==> Fits(bytes, w.at)
  {
    match w
    case Stopped(at, _) => Ok(Field(bytes, at + 42, 4))
    case Through(_) => Err(NotFound)
    case Failed(e) => Err(e)
  }

  // The offset of the local header of the first entry that matches.
  function Found(bytes: seq<byte>, name: seq<byte>, folded: Folded): Result<nat> {
    FoundBy(bytes, Walk(bytes, 0, (at: nat) => !Matches(bytes, at, name, folded)))
  }

  datatype Location = Location(at: int, size: nat, crc: nat)

  function Located(file: seq<byte>, base: int, item: int): Result<Location> {
    if item < 0 then Err(InvalidState)
    else
      match ReadAt(file, base + item, LOCAL_SIZE)
      case Err(e) => Err(e)
      case Ok(h) =>
        if Field(h, 0, 2) != PK || Field(h, 2, 2) != LOCAL then Err(NotZip)
        else if Field(h, 8, 2) != STORED || Field(h, 6, 2) !in {0, LANGUAGE} then Err(Unsupported)
        else Ok(Location(item + LOCAL_SIZE + Field(h, 26, 2) + Field(h, 28, 2), Field(h, 22, 4), Field(h, 14, 4)))
  }

  function Loaded(file: seq<byte>, base: int, item: int): (r: Result<seq<byte>>)
    ensures r.Ok? ==> Located(file, base, item).Ok? && Crc.Crc32(r.value) == Located(file, base, item).value.crc
  {
    match Located(file, base, item)
    case Err(e) => Err(e)
    case Ok(l) =>
      match ReadAt(file, base + l.at, l.size)
      case Err(e) => Err(e)
      case Ok(data) => if Crc.Crc32(data) == l.crc then Ok(data) else Err(Damaged)
  }

  // ----- Writing -----

  // An entry, with the fields the reader does not look at.
  datatype Item = Item(name: seq<byte>, data: seq<byte>, version: word16, flags: word16, localExtra: seq<byte>,
                       extra: seq<byte>, comment: seq<byte>, time: word32, needed: word16, attributes: word64)

  predicate ItemOk(i: Item) {
    && |i.name| < 0x1_0000 && |i.localExtra| < 0x1_0000 && |i.extra| < 0x1_0000 && |i.comment| < 0x1_0000
    && |i.data| < 0x1_0000_0000 && i.flags in {0, LANGUAGE}
    && i.version / 0x100 !in FOLDING
  }

  // A number in front of what follows it.
  function Put(n: nat, x: nat, rest: seq<byte>): (s: seq<byte>)
    ensures |s| == n + |rest|
  {
    ToLittleEndian(x, n) + rest
  }

  function Sizes(i: Item, rest: seq<byte>): (s: seq<byte>)
    ensures |s| == 12 + |rest|
  {
    Put(4, Crc.Crc32(i.data), Put(4, |i.data|, Put(4, |i.data|, rest)))
  }

  function LocalTail(i: Item): (s: seq<byte>)
    ensures |s| == 14 + 2 + |i.name| + |i.localExtra| + |i.data|
  {
    Sizes(i, Put(2, |i.name|, Put(2, |i.localExtra|, i.name + i.localExtra + i.data)))
  }

  // Section 4.3.7: the local header, name, extra field and data.
  function Local(i: Item): (s: seq<byte>)
    ensures |s| == LOCAL_SIZE + |i.name| + |i.localExtra| + |i.data|
  {
    Put(2, PK, Put(2, LOCAL, Put(2, i.needed, Put(2, i.flags, Put(2, STORED, Put(4, i.time, LocalTail(i)))))))
  }

  function HeaderTail(i: Item, offset: nat): (s: seq<byte>)
    ensures |s| == 18 + |i.name| + |i.extra| + |i.comment|
  {
    Put(2, |i.name|, Put(2, |i.extra|, Put(2, |i.comment|, Put(8, i.attributes, Put(4, offset,
      i.name + i.extra + i.comment)))))
  }

  // Section 4.3.12: the file header of the central directory.
  function Header(i: Item, offset: nat): (s: seq<byte>)
    ensures |s| == FILE_SIZE + |i.name| + |i.extra| + |i.comment|
  {
    Put(2, PK, Put(2, FILE, Put(2, i.version, Put(2, i.needed, Put(2, i.flags, Put(2, STORED, Put(4, i.time,
      Sizes(i, HeaderTail(i, offset)))))))))
  }

  function Locals(items: seq<Item>): seq<byte> {
    if items == [] then [] else Local(items[0]) + Locals(items[1..])
  }

  function Central(items: seq<Item>, offset: nat): seq<byte> {
    if items == [] then [] else Header(items[0], offset) + Central(items[1..], offset + |Local(items[0])|)
  }

  // Section 4.3.16: the end record, without a comment.
  function EndRecord(count: nat, size: nat, offset: nat): (s: seq<byte>)
    ensures |s| == END_SIZE
  {
    Put(2, PK, Put(2, END, Put(2, 0, Put(2, 0,
      Put(2, count, Put(2, count, Put(4, size, Put(4, offset, Put(2, 0, [])))))))))
  }

  // The offsets are counted from behind the prefix; the stub is counted in.
  function Bundle(prefix: seq<byte>, stub: seq<byte>, items: seq<Item>): seq<byte> {
    var central := Central(items, |stub|);
    prefix + stub + Locals(items) + central + EndRecord(|items|, |central|, |stub| + |Locals(items)|)
  }

  predicate BundleOk(stub: seq<byte>, items: seq<Item>) {
    && (forall k | 0 <= k < |items| :: ItemOk(items[k]))
    && |items| < 0x1_0000 && |Central(items, |stub|)| < 0x1_0000
    && |stub| + |Locals(items)| + |Central(items, |stub|)| < 0x1_0000_0000
  }

  // ----- Fields of what is written -----

  lemma FieldPut(n: nat, x: nat, rest: seq<byte>)
    requires x < Pow2(8 * n)
    ensures Field(Put(n, x, rest), 0, n) == x
  {
    hide LittleEndian, ToLittleEndian, Pow2;
    assert Put(n, x, rest)[0..n] == ToLittleEndian(x, n);
    LittleEndianRoundTrip(x, n);
  }

  lemma FieldSkip(done: seq<byte>, s: seq<byte>, at: nat, n: nat)
    requires at + n <= |s|
    ensures Field(done + s, |done| + at, n) == Field(s, at, n)
  {
    hide LittleEndian;
    assert (done + s)[|done| + at..|done| + at + n] == s[at..at + n];
  }

  lemma FieldBehind(k: nat, x: nat, s: seq<byte>, at: nat, n: nat)
    requires at + n <= |s|
    ensures Field(Put(k, x, s), k + at, n) == Field(s, at, n)
  {
    hide LittleEndian, ToLittleEndian, Field;
    FieldSkip(ToLittleEndian(x, k), s, at, n);
  }

  lemma FieldWithin(s: seq<byte>, rest: seq<byte>, at: nat, n: nat)
    requires at + n <= |s|
    ensures Field(s + rest, at, n) == Field(s, at, n)
  {
    hide LittleEndian;
    assert (s + rest)[at..at + n] == s[at..at + n];
  }

  lemma Words()
    ensures Pow2(8 * 2) == 0x1_0000 && Pow2(8 * 4) == 0x1_0000_0000
  {
    Pow2Words();
  }

  lemma SizesFields(i: Item, rest: seq<byte>)
    requires |i.data| < 0x1_0000_0000
    ensures Field(Sizes(i, rest), 0, 4) == Crc.Crc32(i.data) && Field(Sizes(i, rest), 8, 4) == |i.data|
    ensures forall at: nat, n: nat | at + n <= |rest| :: Field(Sizes(i, rest), 12 + at, n) == Field(rest, at, n)
  {
    Words();
    hide Field, Put, Crc.Crc32, Pow2;
    var c := Put(4, |i.data|, rest);
    var b := Put(4, |i.data|, c);
    FieldPut(4, Crc.Crc32(i.data), b);
    FieldPut(4, |i.data|, rest);
    FieldBehind(4, |i.data|, c, 0, 4);
    assert Field(b, 4, 4) == |i.data|;
    FieldBehind(4, Crc.Crc32(i.data), b, 4, 4);
    assert Field(Sizes(i, rest), 4 + 4, 4) == |i.data|;
    forall at: nat, n: nat | at + n <= |rest| ensures Field(Sizes(i, rest), 12 + at, n) == Field(rest, at, n) {
      FieldBehind(4, |i.data|, rest, at, n);
      FieldBehind(4, |i.data|, c, 4 + at, n);
      FieldBehind(4, Crc.Crc32(i.data), b, 8 + at, n);
    }
  }

  lemma HeaderTailFields(i: Item, offset: nat)
    requires ItemOk(i) && offset < 0x1_0000_0000
    ensures var t := HeaderTail(i, offset);
      && Field(t, 0, 2) == |i.name| && Field(t, 2, 2) == |i.extra| && Field(t, 4, 2) == |i.comment|
      && Field(t, 14, 4) == offset && t[18..18 + |i.name|] == i.name
  {
    Words();
    hide Field, Put, Pow2;
    var e := Put(4, offset, i.name + i.extra + i.comment);
    var d := Put(8, i.attributes, e);
    var c := Put(2, |i.comment|, d);
    var b := Put(2, |i.extra|, c);
    FieldPut(2, |i.name|, b);
    FieldPut(2, |i.extra|, c);
    FieldPut(2, |i.comment|, d);
    FieldPut(4, offset, i.name + i.extra + i.comment);
    FieldBehind(2, |i.name|, b, 0, 2);
    FieldBehind(2, |i.extra|, c, 0, 2);
    FieldBehind(2, |i.name|, b, 2, 2);
    FieldBehind(8, i.attributes, e, 0, 4);
    FieldBehind(2, |i.comment|, d, 8, 4);
    FieldBehind(2, |i.extra|, c, 10, 4);
    FieldBehind(2, |i.name|, b, 12, 4);
    TailName(i, offset);
  }

  lemma PutDrop(n: nat, x: nat, rest: seq<byte>, k: nat)
    requires k <= |rest|
    ensures Put(n, x, rest)[n + k..] == rest[k..]
  {
    hide ToLittleEndian;
  }

  lemma TailName(i: Item, offset: nat)
    ensures HeaderTail(i, offset)[18..] == i.name + i.extra + i.comment
    ensures HeaderTail(i, offset)[18..18 + |i.name|] == i.name
  {
    hide Put;
    var names := i.name + i.extra + i.comment;
    var e := Put(4, offset, names);
    var d := Put(8, i.attributes, e);
    var c := Put(2, |i.comment|, d);
    var b := Put(2, |i.extra|, c);
    PutDrop(4, offset, names, 0);
    PutDrop(8, i.attributes, e, 4);
    PutDrop(2, |i.comment|, d, 12);
    PutDrop(2, |i.extra|, c, 14);
    PutDrop(2, |i.name|, b, 16);
    var t := HeaderTail(i, offset);
    assert names[0..] == names;
    assert t[18..18 + |i.name|] == t[18..][..|i.name|];
    assert names[..|i.name|] == i.name;
  }

  lemma HeaderBehind(i: Item, offset: nat, at: nat, n: nat)
    requires |i.data| < 0x1_0000_0000 && at + n <= |HeaderTail(i, offset)|
    ensures Field(Header(i, offset), 28 + at, n) == Field(HeaderTail(i, offset), at, n)
  {
    hide Field, Put, Sizes, HeaderTail;
    var tail := HeaderTail(i, offset);
    var h7 := Sizes(i, tail);
    var h6 := Put(4, i.time, h7);
    var h5 := Put(2, STORED, h6);
    var h4 := Put(2, i.flags, h5);
    var h3 := Put(2, i.needed, h4);
    var h2 := Put(2, i.version, h3);
    var h1 := Put(2, FILE, h2);
    SizesFields(i, tail);
    FieldBehind(4, i.time, h7, 12 + at, n);
    FieldBehind(2, STORED, h6, 16 + at, n);
    FieldBehind(2, i.flags, h5, 18 + at, n);
    FieldBehind(2, i.needed, h4, 20 + at, n);
    FieldBehind(2, i.version, h3, 22 + at, n);
    FieldBehind(2, FILE, h2, 24 + at, n);
    FieldBehind(2, PK, h1, 26 + at, n);
  }

  lemma HeaderFields(i: Item, offset: nat)
    requires ItemOk(i) && offset < 0x1_0000_0000
    ensures var h := Header(i, offset);
      && Field(h, 0, 2) == PK && Field(h, 2, 2) == FILE && Field(h, 4, 2) == i.version
      && Field(h, 28, 2) == |i.name| && Field(h, 30, 2) == |i.extra| && Field(h, 32, 2) == |i.comment|
      && Field(h, 42, 4) == offset
  {
    Words();
    hide Field, Put, Sizes, HeaderTail, Pow2;
    HeaderTailFields(i, offset);
    HeaderBehind(i, offset, 0, 2);
    HeaderBehind(i, offset, 2, 2);
    HeaderBehind(i, offset, 4, 2);
    HeaderBehind(i, offset, 14, 4);
    var h3 := Put(2, i.needed, Put(2, i.flags, Put(2, STORED, Put(4, i.time, Sizes(i, HeaderTail(i, offset))))));
    var h2 := Put(2, i.version, h3);
    var h1 := Put(2, FILE, h2);
    FieldPut(2, PK, h1);
    FieldPut(2, FILE, h2);
    FieldPut(2, i.version, h3);
    FieldBehind(2, PK, h1, 0, 2);
    FieldBehind(2, FILE, h2, 0, 2);
    FieldBehind(2, PK, h1, 2, 2);
  }

  lemma HeaderName(i: Item, offset: nat)
    ensures Header(i, offset)[FILE_SIZE..FILE_SIZE + |i.name|] == i.name
  {
    hide Put, Sizes, HeaderTail;
    var tail := HeaderTail(i, offset);
    var h7 := Sizes(i, tail);
    var h6 := Put(4, i.time, h7);
    var h5 := Put(2, STORED, h6);
    var h4 := Put(2, i.flags, h5);
    var h3 := Put(2, i.needed, h4);
    var h2 := Put(2, i.version, h3);
    var h1 := Put(2, FILE, h2);
    SizesDrop(i, tail, 18);
    PutDrop(4, i.time, h7, 30);
    PutDrop(2, STORED, h6, 34);
    PutDrop(2, i.flags, h5, 36);
    PutDrop(2, i.needed, h4, 38);
    PutDrop(2, i.version, h3, 40);
    PutDrop(2, FILE, h2, 42);
    PutDrop(2, PK, h1, 44);
    var h := Header(i, offset);
    assert h[FILE_SIZE..] == tail[18..];
    TailName(i, offset);
    assert h[FILE_SIZE..FILE_SIZE + |i.name|] == h[FILE_SIZE..][..|i.name|];
  }

  lemma SizesDrop(i: Item, rest: seq<byte>, k: nat)
    requires k <= |rest|
    ensures Sizes(i, rest)[12 + k..] == rest[k..]
  {
    hide Put, Crc.Crc32;
    var c := Put(4, |i.data|, rest);
    var b := Put(4, |i.data|, c);
    PutDrop(4, |i.data|, rest, k);
    PutDrop(4, |i.data|, c, 4 + k);
    PutDrop(4, Crc.Crc32(i.data), b, 8 + k);
  }

  // What the reader sees at a file header inside the directory.
  lemma HeaderReads(done: seq<byte>, i: Item, offset: nat, rest: seq<byte>)
    requires ItemOk(i) && offset < 0x1_0000_0000
    ensures var bytes, at := done + Header(i, offset) + rest, |done|;
      && Field(bytes, at, 2) == PK && Field(bytes, at + 2, 2) == FILE && Field(bytes, at + 4, 2) == i.version
      && Fits(bytes, at) && NameAt(bytes, at) == i.name && NextAt(bytes, at) == at + |Header(i, offset)|
      && Field(bytes, at + 42, 4) == offset
  {
    hide Field, Header;
    var h := Header(i, offset);
    var bytes := done + h + rest;
    HeaderFields(i, offset);
    forall at: nat, n: nat | at + n <= |h| ensures Field(bytes, |done| + at, n) == Field(h, at, n) {
      FieldWithin(h, rest, at, n);
      FieldSkip(done, h + rest, at, n);
      assert bytes == done + (h + rest);
    }
    assert Field(bytes, |done| + 0, 2) == PK;
    HeaderName(i, offset);
    assert bytes[|done| + FILE_SIZE..|done| + FILE_SIZE + |i.name|] == h[FILE_SIZE..FILE_SIZE + |i.name|];
  }

  lemma EndReads(done: seq<byte>, count: word16, size: word32, offset: word32)
    ensures var bytes, at := done + EndRecord(count, size, offset), |done|;
      && Field(bytes, at, 2) == PK && Field(bytes, at + 2, 2) == END
      && Field(bytes, at + 12, 4) == size && Field(bytes, at + 16, 4) == offset
  {
    Words();
    hide Field, Put, Pow2;
    var e := EndRecord(count, size, offset);
    var e8 := Put(2, 0, []);
    var e7 := Put(4, offset, e8);
    var e6 := Put(4, size, e7);
    var e5 := Put(2, count, e6);
    var e4 := Put(2, count, e5);
    var e3 := Put(2, 0, e4);
    var e2 := Put(2, 0, e3);
    var e1 := Put(2, END, e2);
    FieldPut(2, PK, e1);
    FieldPut(2, END, e2);
    FieldBehind(2, PK, e1, 0, 2);
    FieldPut(4, size, e7);
    FieldPut(4, offset, e8);
    FieldBehind(4, size, e7, 0, 4);
    EndBehind(count, e6, 0, 4);
    EndBehind(count, e6, 4, 4);
    FieldSkip(done, e, 0, 2);
    FieldSkip(done, e, 2, 2);
    FieldSkip(done, e, 12, 4);
    FieldSkip(done, e, 16, 4);
  }

  lemma EndBehind(count: word16, e6: seq<byte>, at: nat, n: nat)
    requires at + n <= |e6|
    ensures var e := Put(2, PK, Put(2, END, Put(2, 0, Put(2, 0, Put(2, count, Put(2, count, e6))))));
      Field(e, 12 + at, n) == Field(e6, at, n)
  {
    hide Field, Put;
    var e5 := Put(2, count, e6);
    var e4 := Put(2, count, e5);
    var e3 := Put(2, 0, e4);
    var e2 := Put(2, 0, e3);
    var e1 := Put(2, END, e2);
    FieldBehind(2, count, e6, at, n);
    FieldBehind(2, count, e5, 2 + at, n);
    FieldBehind(2, 0, e4, 4 + at, n);
    FieldBehind(2, 0, e3, 6 + at, n);
    FieldBehind(2, END, e2, 8 + at, n);
    FieldBehind(2, PK, e1, 10 + at, n);
  }

  // What the reader sees at a local header.
  lemma LocalFields(i: Item)
    requires ItemOk(i)
    ensures var h := Local(i);
      && Field(h, 0, 2) == PK && Field(h, 2, 2) == LOCAL && Field(h, 6, 2) == i.flags && Field(h, 8, 2) == STORED
      && Field(h, 14, 4) == Crc.Crc32(i.data) && Field(h, 22, 4) == |i.data|
      && Field(h, 26, 2) == |i.name| && Field(h, 28, 2) == |i.localExtra|
  {
    Words();
    hide Field, Put, Pow2, Sizes, Crc.Crc32;
    var body := i.name + i.localExtra + i.data;
    var t2 := Put(2, |i.localExtra|, body);
    var t1 := Put(2, |i.name|, t2);
    var tail := LocalTail(i);
    SizesFields(i, t1);
    FieldPut(2, |i.name|, t2);
    FieldPut(2, |i.localExtra|, body);
    FieldBehind(2, |i.name|, t2, 0, 2);
    assert Field(tail, 12 + 0, 2) == |i.name| && Field(tail, 12 + 2, 2) == |i.localExtra|;
    var h5 := Put(4, i.time, tail);
    var h4 := Put(2, STORED, h5);
    var h3 := Put(2, i.flags, h4);
    var h2 := Put(2, i.needed, h3);
    var h1 := Put(2, LOCAL, h2);
    FieldPut(2, PK, h1);
    FieldPut(2, LOCAL, h2);
    FieldPut(2, i.flags, h4);
    FieldPut(2, STORED, h5);
    FieldBehind(2, PK, h1, 0, 2);
    FieldBehind(2, i.flags, h4, 0, 2);
    LocalBehind(i, h3, 0, 2);
    LocalBehind(i, h3, 2, 2);
    forall at: nat, n: nat | at + n <= |tail| ensures Field(Local(i), 14 + at, n) == Field(tail, at, n) {
      FieldBehind(4, i.time, tail, at, n);
      FieldBehind(2, STORED, h5, 4 + at, n);
      FieldBehind(2, i.flags, h4, 6 + at, n);
      LocalBehind(i, h3, 8 + at, n);
    }
    assert Field(Local(i), 14 + 0, 4) == Field(tail, 0, 4) && Field(Local(i), 14 + 8, 4) == Field(tail, 8, 4);
    assert Field(Local(i), 14 + 12, 2) == Field(tail, 12, 2) && Field(Local(i), 14 + 14, 2) == Field(tail, 14, 2);
  }

  lemma LocalBehind(i: Item, h3: seq<byte>, at: nat, n: nat)
    requires at + n <= |h3|
    ensures Field(Put(2, PK, Put(2, LOCAL, Put(2, i.needed, h3))), 6 + at, n) == Field(h3, at, n)
  {
    hide Field, Put;
    var h2 := Put(2, i.needed, h3);
    var h1 := Put(2, LOCAL, h2);
    FieldBehind(2, i.needed, h3, at, n);
    FieldBehind(2, LOCAL, h2, 2 + at, n);
    FieldBehind(2, PK, h1, 4 + at, n);
  }

  lemma LocalData(i: Item)
    ensures Local(i)[LOCAL_SIZE + |i.name| + |i.localExtra|..] == i.data
  {
    hide Put, Sizes, Crc.Crc32;
    var body := i.name + i.localExtra + i.data;
    var k := |i.name| + |i.localExtra|;
    var t2 := Put(2, |i.localExtra|, body);
    var t1 := Put(2, |i.name|, t2);
    var tail := LocalTail(i);
    assert body[k..] == i.data;
    PutDrop(2, |i.localExtra|, body, k);
    PutDrop(2, |i.name|, t2, 2 + k);
    SizesDrop(i, t1, 4 + k);
    var h5 := Put(4, i.time, tail);
    var h4 := Put(2, STORED, h5);
    var h3 := Put(2, i.flags, h4);
    var h2 := Put(2, i.needed, h3);
    var h1 := Put(2, LOCAL, h2);
    PutDrop(4, i.time, tail, 16 + k);
    PutDrop(2, STORED, h5, 20 + k);
    PutDrop(2, i.flags, h4, 22 + k);
    PutDrop(2, i.needed, h3, 24 + k);
    PutDrop(2, LOCAL, h2, 26 + k);
    PutDrop(2, PK, h1, 28 + k);
  }

  // ----- Whole bundles -----

  // Whatever the executable, its directory and the place the offsets are counted from are found.
  lemma OpensBundle(prefix: seq<byte>, stub: seq<byte>, items: seq<Item>)
    requires BundleOk(stub, items)
    ensures var central := Central(items, |stub|);
      DirectoryOf(Bundle(prefix, stub, items))
      == Ok(Directory(central + EndRecord(|items|, |central|, |stub| + |Locals(items)|), |prefix|))
  {
    hide Field, Central, Locals, EndRecord, ItemOk, DirectoryOf;
    var central := Central(items, |stub|);
    var offset := |stub| + |Locals(items)|;
    var end := EndRecord(|items|, |central|, offset);
    EndReads([], |items|, |central|, offset);
    assert [] + end == end;
    DirectoryOfTail(prefix + stub + Locals(items), central, end, offset);
  }

  lemma DirectoryOfTail(before: seq<byte>, central: seq<byte>, end: seq<byte>, offset: nat)
    requires |end| == END_SIZE && Field(end, 0, 2) == PK && Field(end, 2, 2) == END
    requires Field(end, 12, 4) == |central| <= 0xFFFF && Field(end, 16, 4) == offset
    requires offset + |central| < 0x1_0000_0000
    ensures DirectoryOf(before + central + end) == Ok(Directory(central + end, |before| - offset))
  {
    hide Field;
    var file := before + central + end;
    TailOf(before + central, end);
    TailOf(before, central + end);
    assert before + (central + end) == file;
  }

  lemma TailOf(s: seq<byte>, tail: seq<byte>)
    ensures ReadAt(s + tail, |s|, |tail|) == Ok(tail)
  {
    assert (s + tail)[|s|..|s| + |tail|] == tail;
  }

  // The headers an enumeration shows to its visitor.
  function Shown(bytes: seq<byte>, at: nat, go: nat -> bool): seq<nat>
    decreases if at <= |bytes| then |bytes| - at else 0
  {
    if |bytes| < at + 4 || Field(bytes, at, 2) != PK || Field(bytes, at + 2, 2) != FILE || !Fits(bytes, at) then []
    else [at] + if go(at) then Shown(bytes, NextAt(bytes, at), go) else []
  }

  lemma AtEnd(bytes: seq<byte>, at: nat, go: nat -> bool)
    requires at + 4 <= |bytes| && Field(bytes, at, 2) == PK && Field(bytes, at + 2, 2) == END
    ensures Walk(bytes, at, go) == Through(0) && Shown(bytes, at, go) == []
  {
    hide Field;
  }

  lemma AtHeader(bytes: seq<byte>, at: nat, go: nat -> bool)
    requires Fits(bytes, at) && Field(bytes, at, 2) == PK && Field(bytes, at + 2, 2) == FILE
    ensures go(at) ==> Walk(bytes, at, go) == After(Walk(bytes, NextAt(bytes, at), go))
    ensures go(at) ==> Shown(bytes, at, go) == [at] + Shown(bytes, NextAt(bytes, at), go)
    ensures !go(at) ==> Walk(bytes, at, go) == Stopped(at, 0) && Shown(bytes, at, go) == [at]
  {
    hide Field;
  }

  // The place of the first entry of a name; the number of entries if there is none.
  function IndexOf(items: seq<Item>, name: seq<byte>): (k: nat)
    ensures k <= |items| && (k < |items| ==> items[k].name == name)
    ensures forall j | 0 <= j < k :: items[j].name != name
  {
    if items == [] || items[0].name == name then 0 else 1 + IndexOf(items[1..], name)
  }

  // A walk that stops at the first entry of a name, where the offset of its local header is, or passes them all.
  ghost predicate Finds(bytes: seq<byte>, w: Walked, items: seq<Item>, offset: nat, name: seq<byte>) {
    var k := IndexOf(items, name);
    if k == |items| then w == Through(k)
    else w.Stopped? && w.count == k && Fits(bytes, w.at)
         && Field(bytes, w.at + 42, 4) == offset + |Locals(items[..k])|
  }

  lemma FindsHere(bytes: seq<byte>, at: nat, items: seq<Item>, offset: nat, name: seq<byte>)
    requires items != [] && items[0].name == name && Fits(bytes, at) && Field(bytes, at + 42, 4) == offset
    ensures Finds(bytes, Stopped(at, 0), items, offset, name)
  {
    hide Field;
    assert items[..0] == [];
  }

  lemma FindsLater(bytes: seq<byte>, w: Walked, items: seq<Item>, offset: nat, name: seq<byte>)
    requires items != [] && items[0].name != name
    requires Finds(bytes, w, items[1..], offset + |Local(items[0])|, name)
    ensures Finds(bytes, After(w), items, offset, name)
  {
    hide Field, Local, Fits;
    var k := IndexOf(items[1..], name);
    assert items[..k + 1][1..] == items[1..][..k];
  }

  lemma {:induction false} WalkFinds(done: seq<byte>, items: seq<Item>, offset: nat, end: seq<byte>,
                                     name: seq<byte>, folded: Folded, go: nat -> bool, bytes: seq<byte>)
    requires bytes == done + Central(items, offset) + end
    requires forall k | 0 <= k < |items| :: ItemOk(items[k])
    requires offset + |Locals(items)| < 0x1_0000_0000
    requires |end| >= 4 && Field(end, 0, 2) == PK && Field(end, 2, 2) == END
    requires forall at: nat :: go(at) <==> !Matches(bytes, at, name, folded)
    ensures Finds(bytes, Walk(bytes, |done|, go), items, offset, name)
    decreases |items|
  {
    hide Field, Header, Local, ItemOk, Walk, Fits, NextAt, Matches;
    if items == [] {
      assert bytes == done + end;
      FieldSkip(done, end, 0, 2);
      FieldSkip(done, end, 2, 2);
      AtEnd(bytes, |done|, go);
    } else {
      hide Central, Finds, IndexOf;
      var h := Header(items[0], offset);
      FirstHeader(done, items, offset, end, bytes);
      HeaderMatches(bytes, |done|, items[0], name, folded);
      AtHeader(bytes, |done|, go);
      if items[0].name == name {
        FindsHere(bytes, |done|, items, offset, name);
      } else {
        WalkFinds(done + h, items[1..], offset + |Local(items[0])|, end, name, folded, go, bytes);
        FindsLater(bytes, Walk(bytes, |done + h|, go), items, offset, name);
      }
    }
  }

  // The first of the headers that are left, and where the others begin.
  lemma FirstHeader(done: seq<byte>, items: seq<Item>, offset: nat, end: seq<byte>, bytes: seq<byte>)
    requires items != [] && ItemOk(items[0]) && offset < 0x1_0000_0000
    requires bytes == done + Central(items, offset) + end
    ensures var h := Header(items[0], offset);
      && bytes == (done + h) + Central(items[1..], offset + |Local(items[0])|) + end
      && Fits(bytes, |done|) && Field(bytes, |done|, 2) == PK && Field(bytes, |done| + 2, 2) == FILE
      && Field(bytes, |done| + 4, 2) == items[0].version && NameAt(bytes, |done|) == items[0].name
      && NextAt(bytes, |done|) == |done + h| && Field(bytes, |done| + 42, 4) == offset
  {
    hide Field, Header, Local, ItemOk, Fits, NextAt;
    var h := Header(items[0], offset);
    var rest := Central(items[1..], offset + |Local(items[0])|);
    HeaderReads(done, items[0], offset, rest + end);
    assert bytes == done + h + (rest + end);
    assert bytes == (done + h) + rest + end;
  }

  lemma HeaderMatches(bytes: seq<byte>, at: nat, i: Item, name: seq<byte>, folded: Folded)
    requires ItemOk(i) && Fits(bytes, at) && Field(bytes, at + 4, 2) == i.version && NameAt(bytes, at) == i.name
    ensures Matches(bytes, at, name, folded) <==> i.name == name
  {
    hide Field, NameAt, Fits;
    FoldingFree(i);
  }

  lemma FoldingFree(i: Item)
    requires ItemOk(i)
    ensures i.version / 0x100 !in FOLDING
  {
  }

  // The first entry of a name is found, by the offset of its local header; no other name is.
  lemma FindsFirst(prefix: seq<byte>, stub: seq<byte>, items: seq<Item>, name: seq<byte>, folded: Folded)
    requires BundleOk(stub, items)
    ensures var r, k := DirectoryOf(Bundle(prefix, stub, items)), IndexOf(items, name);
      r.Ok? && Found(r.value.bytes, name, folded)
               == if k < |items| then Ok(|stub| + |Locals(items[..k])|) else Err(NotFound)
  {
    hide Field, Central, Locals, EndRecord, ItemOk, Walk, Matches, Bundle, DirectoryOf;
    OpensBundle(prefix, stub, items);
    var central := Central(items, |stub|);
    var end := EndRecord(|items|, |central|, |stub| + |Locals(items)|);
    EndReads([], |items|, |central|, |stub| + |Locals(items)|);
    assert [] + end == end;
    var bytes := central + end;
    assert bytes == [] + central + end;
    var go := (at: nat) => !Matches(bytes, at, name, folded);
    WalkFinds([], items, |stub|, end, name, folded, go, bytes);
    var w := Walk(bytes, 0, go);
    assert Found(bytes, name, folded) == FoundBy(bytes, w);
  }

  // In the order of the entries, each once.
  ghost predicate ShowsNames(bytes: seq<byte>, from: nat, shown: seq<nat>, items: seq<Item>) {
    && |shown| == |items|
    && (forall k | 0 <= k < |items| ::
          from <= shown[k] && Fits(bytes, shown[k]) && NameAt(bytes, shown[k]) == items[k].name)
    && (forall j, k | 0 <= j < k < |items| :: shown[j] < shown[k])
  }

  lemma ShowsOneMore(bytes: seq<byte>, at: nat, next: nat, shown: seq<nat>, items: seq<Item>)
    requires items != [] && at < next && ShowsNames(bytes, next, shown, items[1..])
    requires Fits(bytes, at) && NameAt(bytes, at) == items[0].name
    ensures ShowsNames(bytes, at, [at] + shown, items)
  {
    hide Fits, NameAt;
    var all := [at] + shown;
    assert forall k | 1 <= k < |items| :: all[k] == shown[k - 1] && items[k] == items[1..][k - 1];
  }

  lemma {:induction false} ShowsEach(done: seq<byte>, items: seq<Item>, offset: nat, end: seq<byte>,
                                     go: nat -> bool, bytes: seq<byte>)
    requires bytes == done + Central(items, offset) + end
    requires forall k | 0 <= k < |items| :: ItemOk(items[k])
    requires offset + |Locals(items)| < 0x1_0000_0000
    requires |end| >= 4 && Field(end, 0, 2) == PK && Field(end, 2, 2) == END
    requires forall at: nat :: go(at)
    ensures Walk(bytes, |done|, go) == Through(|items|)
    ensures ShowsNames(bytes, |done|, Shown(bytes, |done|, go), items)
    decreases |items|
  {
    hide Field, Header, Local, ItemOk, Walk, Shown, Fits, NameAt, NextAt;
    if items == [] {
      assert bytes == done + end;
      FieldSkip(done, end, 0, 2);
      FieldSkip(done, end, 2, 2);
      AtEnd(bytes, |done|, go);
    } else {
      hide ShowsNames;
      var h := Header(items[0], offset);
      var next := offset + |Local(items[0])|;
      var rest := Central(items[1..], next);
      HeaderReads(done, items[0], offset, rest + end);
      assert bytes == done + h + (rest + end);
      assert bytes == (done + h) + rest + end;
      AtHeader(bytes, |done|, go);
      ShowsEach(done + h, items[1..], next, end, go, bytes);
      ShowsOneMore(bytes, |done|, |done + h|, Shown(bytes, |done + h|, go), items);
    }
  }

  lemma EnumeratesEach(prefix: seq<byte>, stub: seq<byte>, items: seq<Item>, go: nat -> bool)
    requires BundleOk(stub, items) && forall at: nat :: go(at)
    ensures var r := DirectoryOf(Bundle(prefix, stub, items));
      && r.Ok? && Walk(r.value.bytes, 0, go) == Through(|items|)
      && var shown := Shown(r.value.bytes, 0, go);
        ShowsNames(r.value.bytes, 0, shown, items)
  {
    hide Field, Central, Locals, EndRecord, ItemOk, Walk, Shown, Bundle, DirectoryOf, ShowsNames;
    OpensBundle(prefix, stub, items);
    var central := Central(items, |stub|);
    var end := EndRecord(|items|, |central|, |stub| + |Locals(items)|);
    EndReads([], |items|, |central|, |stub| + |Locals(items)|);
    assert [] + end == end;
    assert central + end == [] + central + end;
    ShowsEach([], items, |stub|, end, go, central + end);
  }

  lemma {:induction false} LocalsSplit(items: seq<Item>, k: nat)
    requires k < |items|
    ensures Locals(items) == Locals(items[..k]) + Local(items[k]) + Locals(items[k + 1..])
  {
    hide Local;
    if k == 0 {
      assert items[..0] == [];
    } else {
      LocalsSplit(items[1..], k - 1);
      assert items[..k][1..] == items[1..][..k - 1] && items[1..][k..] == items[k + 1..];
      assert items[..k][0] == items[0];
    }
  }

  // The data of an entry is read from behind its local header.
  lemma LoadsAt(before: seq<byte>, i: Item, after: seq<byte>, base: nat)
    requires ItemOk(i) && base <= |before|
    ensures Loaded(before + Local(i) + after, base, |before| - base) == Ok(i.data)
  {
    hide Field, Local, Crc.Crc32;
    var file, h := before + Local(i) + after, Local(i);
    var at := |before|;
    assert file[at..at + LOCAL_SIZE] == h[..LOCAL_SIZE];
    LocalFields(i);
    forall k: nat, n: nat | k + n <= LOCAL_SIZE ensures Field(h[..LOCAL_SIZE], k, n) == Field(h, k, n) {
      FieldWithin(h[..LOCAL_SIZE], h[LOCAL_SIZE..], k, n);
      assert h == h[..LOCAL_SIZE] + h[LOCAL_SIZE..];
    }
    LocalData(i);
    var d := LOCAL_SIZE + |i.name| + |i.localExtra|;
    assert file[at + d..at + d + |i.data|] == h[d..];
  }

  // From any executable and any list of entries: opened, searched and loaded, it is the data of the first entry
  // of that name.
  lemma LoadsFirst(prefix: seq<byte>, stub: seq<byte>, items: seq<Item>, name: seq<byte>, folded: Folded)
    requires BundleOk(stub, items) && exists k :: 0 <= k < |items| && items[k].name == name
    ensures var file := Bundle(prefix, stub, items);
      && DirectoryOf(file).Ok? && Found(DirectoryOf(file).value.bytes, name, folded).Ok?
      && Loaded(file, DirectoryOf(file).value.base, Found(DirectoryOf(file).value.bytes, name, folded).value)
         == Ok(items[IndexOf(items, name)].data)
  {
    hide Field, Central, Locals, EndRecord, ItemOk, Local, DirectoryOf, Found, Loaded;
    OpensBundle(prefix, stub, items);
    FindsFirst(prefix, stub, items, name, folded);
    var k := IndexOf(items, name);
    LocalsSplit(items, k);
    var central := Central(items, |stub|);
    var end := EndRecord(|items|, |central|, |stub| + |Locals(items)|);
    var before, after := prefix + stub + Locals(items[..k]), Locals(items[k + 1..]) + central + end;
    assert Bundle(prefix, stub, items) == before + Local(items[k]) + after;
    LoadsAt(before, items[k], after, |prefix|);
  }

  // ----- What is accepted, byte by byte -----

  predicate Signed(s: seq<byte>, at: nat, x: byte, y: byte) {
    at + 4 <= |s| && s[at] == 0x50 && s[at + 1] == 0x4B && s[at + 2] == x && s[at + 3] == y
  }

  function U16(s: seq<byte>, at: nat): nat
    requires at + 2 <= |s|
  {
    s[at] as nat + 0x100 * s[at + 1] as nat
  }

  function U32(s: seq<byte>, at: nat): nat
    requires at + 4 <= |s|
  {
    U16(s, at) + 0x1_0000 * U16(s, at + 2)
  }

  lemma FieldBytes(s: seq<byte>, at: nat)
    ensures at + 2 <= |s| ==> Field(s, at, 2) == U16(s, at)
    ensures at + 4 <= |s| ==> Field(s, at, 4) == U32(s, at)
    ensures at + 4 <= |s| ==> forall x: byte, y: byte ::
      (Field(s, at, 2) == PK && Field(s, at + 2, 2) == 0x100 * y + x <==> Signed(s, at, x, y))
  {
    if at + 2 <= |s| {
      TwoBytes(s[at..at + 2]);
    }
    if at + 4 <= |s| {
      TwoBytes(s[at + 2..at + 4]);
      var t := s[at..at + 4];
      TwoBytes(t[2..]);
      assert t[1..][1..] == t[2..];
      hide Field;
      assert LittleEndian(t) == t[0] + 0x100 * LittleEndian(t[1..]);
      assert LittleEndian(t[1..]) == t[1] + 0x100 * LittleEndian(t[2..]);
      FieldIs(s, at);
    }
  }

  lemma FieldIs(s: seq<byte>, at: nat)
    requires at + 4 <= |s|
    ensures Field(s, at, 4) == LittleEndian(s[at..at + 4])
    ensures Field(s, at, 2) == LittleEndian(s[at..at + 2]) && Field(s, at + 2, 2) == LittleEndian(s[at + 2..at + 4])
  {
  }

  lemma TwoBytes(t: seq<byte>)
    requires |t| == 2
    ensures LittleEndian(t) == t[0] as nat + 0x100 * t[1] as nat
  {
    assert LittleEndian(t[1..]) == t[1];
  }

  // A bundle opens if and only if it ends with an end record, of a directory of at most 64 kilobytes that is inside of
  // the file.
  lemma OpensExactly(file: seq<byte>)
    ensures var d := DirectoryOf(file);
      if |file| < 22 then d == Err(Unreadable)
      else if !Signed(file, |file| - 22, 5, 6) then d == Err(NotZip)
      else
        var size, offset := U32(file, |file| - 10), U32(file, |file| - 6);
        if 65535 < size then d == Err(TooBig)
        else if |file| < size + 22 then d == Err(Unreadable)
        else d == Ok(Directory(file[|file| - 22 - size..], |file| - 22 - (offset + size) % 0x1_0000_0000))
  {
    hide Field, U16, U32, Signed;
    if 22 <= |file| {
      var n := |file| - 22;
      var end := file[n..n + 22];
      FieldInside(file, n, 22, 0);
      FieldInside(file, n, 22, 2);
      FieldInside(file, n, 22, 12);
      FieldInside(file, n, 22, 16);
      FieldBytes(file, n);
      FieldBytes(file, n + 12);
      FieldBytes(file, n + 16);
      var size := U32(file, n + 12);
      if size <= n {
        assert file[n - size..n - size + (size + 22)] == file[n - size..];
      }
    }
  }

  // A field of a part of a file.
  lemma FieldInside(file: seq<byte>, from: nat, n: nat, at: nat)
    requires from + n <= |file|
    ensures at + 2 <= n ==> Field(file[from..from + n], at, 2) == Field(file, from + at, 2)
    ensures at + 4 <= n ==> Field(file[from..from + n], at, 4) == Field(file, from + at, 4)
  {
    hide LittleEndian;
    if at + 2 <= n {
      SliceOfSlice(file, from, from + n, at, at + 2);
    }
    if at + 4 <= n {
      SliceOfSlice(file, from, from + n, at, at + 4);
    }
  }

  // An entry is located if and only if there is a local header at its place, which says that it is stored and has no
  // flag but that of the language.
  lemma LocatedExactly(file: seq<byte>, base: int, item: int)
    ensures var l, p := Located(file, base, item), base + item;
      if item < 0 then l == Err(InvalidState)
      else if p < 0 || |file| < p + 30 then l == Err(Unreadable)
      else if !Signed(file, p, 3, 4) then l == Err(NotZip)
      else if U16(file, p + 8) != 0 || U16(file, p + 6) !in [0, 0x800] then l == Err(Unsupported)
      else l == Ok(Location(item + 30 + U16(file, p + 26) + U16(file, p + 28), U32(file, p + 22), U32(file, p + 14)))
  {
    hide Field, U16, U32, Signed;
    var p := base + item;
    if 0 <= p && p + 30 <= |file| {
      FieldsInside(file, p);
      FieldBytes(file, p);
      FieldBytes(file, p + 6);
      FieldBytes(file, p + 8);
      FieldBytes(file, p + 14);
      FieldBytes(file, p + 22);
      FieldBytes(file, p + 26);
      FieldBytes(file, p + 28);
    }
  }

  lemma FieldsInside(file: seq<byte>, p: nat)
    requires p + 30 <= |file|
    ensures var h := file[p..p + 30];
      && Field(h, 0, 2) == Field(file, p, 2) && Field(h, 2, 2) == Field(file, p + 2, 2)
      && Field(h, 6, 2) == Field(file, p + 6, 2) && Field(h, 8, 2) == Field(file, p + 8, 2)
      && Field(h, 14, 4) == Field(file, p + 14, 4) && Field(h, 22, 4) == Field(file, p + 22, 4)
      && Field(h, 26, 2) == Field(file, p + 26, 2) && Field(h, 28, 2) == Field(file, p + 28, 2)
  {
    hide Field;
    FieldInside(file, p, 30, 0);
    FieldInside(file, p, 30, 2);
    FieldInside(file, p, 30, 6);
    FieldInside(file, p, 30, 8);
    FieldInside(file, p, 30, 14);
    FieldInside(file, p, 30, 22);
    FieldInside(file, p, 30, 26);
    FieldInside(file, p, 30, 28);
  }

  // An enumeration ends at the end record and goes on at a file header; anything else fails.
  lemma WalksExactly(bytes: seq<byte>, at: nat, go: nat -> bool)
    ensures var w := Walk(bytes, at, go);
      if |bytes| < at + 4 then w == Failed(Overrun)
      else if Signed(bytes, at, 5, 6) then w == Through(0)
      else if !Signed(bytes, at, 1, 2) then w == Failed(NotZip)
      else if |bytes| < at + 46 || |bytes| < at + 46 + U16(bytes, at + 28) then w == Failed(Overrun)
      else if !go(at) then w == Stopped(at, 0)
      else
        w == After(Walk(bytes, at + 46 + U16(bytes, at + 28) + U16(bytes, at + 30) + U16(bytes, at + 32), go))
  {
    hide Field, U16, U32, Signed;
    FieldBytes(bytes, at);
    FieldBytes(bytes, at + 28);
    FieldBytes(bytes, at + 30);
    FieldBytes(bytes, at + 32);
  }

  // Names are compared as they are, unless the entry was made on a host that folds their case.
  lemma MatchesExactly(bytes: seq<byte>, at: nat, name: seq<byte>, folded: Folded)
    requires at + 46 <= |bytes|
    ensures Matches(bytes, at, name, folded) <==>
      var n := U16(bytes, at + 28);
      at + 46 + n <= |bytes|
      && if bytes[at + 5] in [0, 10, 14] then folded(name, bytes, at) else bytes[at + 46..at + 46 + n] == name
  {
    hide Field;
    FieldBytes(bytes, at + 4);
    FieldBytes(bytes, at + 28);
  }

  // ----- The archive -----

  class Archive {
    var file: seq<byte>
    var alive: bool
    var isOpen: bool
    var directory: seq<byte>
    var base: int

    constructor ()
      ensures !isOpen && !alive
    {
      file, alive, isOpen, directory, base := [], false, false, [], 0;
    }

    // A read that fails closes the file, so that every later one fails too.
    method SeekRead(at: int, n: nat) returns (r: Result<seq<byte>>)
      modifies this`alive
      ensures r == if old(alive) then ReadAt(file, at, n) else Err(Unreadable)
      ensures alive == (old(alive) && r.Ok?)
    {
      r := if alive then ReadAt(file, at, n) else Err(Unreadable);
      alive := alive && r.Ok?;
    }

    method Open(bundle: seq<byte>) returns (error: Result<bool>)
      modifies this
      ensures old(isOpen) ==> error == Err(InvalidState) && unchanged(this)
      ensures !old(isOpen) ==>
        match DirectoryOf(bundle)
        case Err(e) => error == Err(e) && !isOpen
        case Ok(d) => error == Ok(true) && isOpen && alive && file == bundle && directory == d.bytes && base == d.base
    {
      hide Field;
      if isOpen {
        return Err(InvalidState);
      }
      file, alive := bundle, true;
      var end := SeekRead(|file| - END_SIZE, END_SIZE);
      if end.Err? {
        return Err(end.error);
      }
      if Field(end.value, 0, 2) != PK || Field(end.value, 2, 2) != END {
        return Err(NotZip);
      }
      var size := Field(end.value, 12, 4);
      if 0xFFFF < size {
        return Err(TooBig);
      }
      var bytes := SeekRead(|file| - (size + END_SIZE), size + END_SIZE);
      if bytes.Err? {
        return Err(bytes.error);
      }
      isOpen, directory := true, bytes.value;
      DirectoryReads(bundle);
      base := |file| - ((Field(directory, size + 16, 4) + Field(directory, size + 12, 4)) % 0x1_0000_0000 + END_SIZE);
      error := Ok(true);
    }

    // The headers shown to the visitor one after the other, until it says stop.
    method EnumFiles(go: nat -> bool) returns (walked: Walked, shown: seq<nat>)
      ensures !isOpen ==> walked == Failed(InvalidState) && shown == []
      ensures isOpen ==> walked == Walk(directory, 0, go) && shown == Shown(directory, 0, go)
    {
      hide Field, Walk, Shown;
      shown := [];
      if !isOpen {
        return Failed(InvalidState), shown;
      }
      var at, i := 0, 0;
      while true
        invariant Walk(directory, 0, go) == Later(Walk(directory, at, go), i)
        invariant Shown(directory, 0, go) == shown + Shown(directory, at, go)
        decreases if at <= |directory| then |directory| - at else 0
      {
        AtAny(directory, at, go);
        if |directory| < at + 4 {
          return Failed(Overrun), shown;
        }
        if Field(directory, at, 2) != PK {
          return Failed(NotZip), shown;
        }
        if Field(directory, at + 2, 2) == END {
          return Through(i), shown;
        }
        if Field(directory, at + 2, 2) != FILE {
          return Failed(NotZip), shown;
        }
        if !Fits(directory, at) {
          return Failed(Overrun), shown;
        }
        ghost var before, here := shown, at;
        shown := shown + [at];
        if !go(at) {
          return Stopped(at, i), shown;
        }
        at := NextAt(directory, at);
        assert before + ([here] + Shown(directory, at, go)) == shown + Shown(directory, at, go);
        i := i + 1;
      }
    }

    method Search(name: seq<byte>, folded: Folded) returns (r: Result<nat>)
      ensures r == if isOpen then Found(directory, name, folded) else Err(InvalidState)
    {
      var bytes := directory;
      var go := (at: nat) => !Matches(bytes, at, name, folded);
      var walked, _ := EnumFiles(go);
      match walked
      case Stopped(at, _) => r := Ok(Field(directory, at + 42, 4));
      case Through(_) => r := Err(NotFound);
      case Failed(e) => r := Err(e);
    }

    method GetData(item: int) returns (r: Result<Location>)
      modifies this`alive
      ensures r == if !isOpen then Err(InvalidState) else if item < 0 || old(alive) then Located(file, base, item)
                   else Err(Unreadable)
      ensures alive ==> old(alive)
      ensures isOpen && r.Ok? ==> alive
    {
      if !isOpen || item < 0 {
        return Err(InvalidState);
      }
      var h := SeekRead(base + item, LOCAL_SIZE);
      if h.Err? {
        return Err(h.error);
      }
      var lfh := h.value;
      if Field(lfh, 0, 2) != PK || Field(lfh, 2, 2) != LOCAL {
        return Err(NotZip);
      }
      if Field(lfh, 8, 2) != STORED || Field(lfh, 6, 2) !in {0, LANGUAGE} {
        return Err(Unsupported);
      }
      r := Ok(Location(item + LOCAL_SIZE + Field(lfh, 26, 2) + Field(lfh, 28, 2),
                       Field(lfh, 22, 4), Field(lfh, 14, 4)));
    }

    method LoadData(item: int) returns (r: Result<seq<byte>>)
      modifies this`alive
      ensures isOpen && old(alive) ==> r == Loaded(file, base, item)
      ensures !(isOpen && old(alive)) ==> r.Err?
      ensures r.Ok? ==> alive
    {
      var located := GetData(item);
      if located.Err? {
        return Err(located.error);
      }
      var l := located.value;
      r := SeekRead(base + l.at, l.size);
      if r.Ok? && Crc.Crc32(r.value) != l.crc {
        r := Err(Damaged);
      }
    }
  }

  lemma AtAny(bytes: seq<byte>, at: nat, go: nat -> bool)
    ensures
      if |bytes| < at + 4 || Field(bytes, at, 2) != PK || Field(bytes, at + 2, 2) != FILE || !Fits(bytes, at) then
        Shown(bytes, at, go) == []
        && Walk(bytes, at, go)
           == if |bytes| < at + 4 then Failed(Overrun)
              else if Field(bytes, at, 2) != PK then Failed(NotZip)
              else if Field(bytes, at + 2, 2) == END then Through(0)
              else if Field(bytes, at + 2, 2) != FILE then Failed(NotZip)
              else Failed(Overrun)
      else if go(at) then
        Walk(bytes, at, go) == After(Walk(bytes, NextAt(bytes, at), go))
        && Shown(bytes, at, go) == [at] + Shown(bytes, NextAt(bytes, at), go)
      else Walk(bytes, at, go) == Stopped(at, 0) && Shown(bytes, at, go) == [at]
  {
    hide Field, Fits;
  }

  // An enumeration that went past some headers before.
  function Later(w: Walked, i: nat): Walked {
    match w
    case Stopped(at, count) => Stopped(at, count + i)
    case Through(count) => Through(count + i)
    case Failed(e) => Failed(e)
  }

  // The end record is read once more as a part of the directory.
  lemma DirectoryReads(file: seq<byte>)
    requires DirectoryOf(file).Ok?
    ensures END_SIZE <= |file| && END_SIZE <= |DirectoryOf(file).value.bytes|
    ensures var end, bytes := file[|file| - END_SIZE..|file| - END_SIZE + END_SIZE], DirectoryOf(file).value.bytes;
      && |bytes| == Field(end, 12, 4) + END_SIZE
      && Field(bytes, |bytes| - END_SIZE + 12, 4) == Field(end, 12, 4)
      && Field(bytes, |bytes| - END_SIZE + 16, 4) == Field(end, 16, 4)
  {
    hide Field;
    var end, bytes := file[|file| - END_SIZE..|file| - END_SIZE + END_SIZE], DirectoryOf(file).value.bytes;
    assert bytes == file[|file| - |bytes|..];
    assert bytes[|bytes| - END_SIZE..] == end;
    FieldOfTail(bytes, |bytes| - END_SIZE, 12, 4);
    FieldOfTail(bytes, |bytes| - END_SIZE, 16, 4);
  }

  lemma FieldOfTail(s: seq<byte>, k: nat, at: nat, n: nat)
    requires k + at + n <= |s|
    ensures Field(s[k..], at, n) == Field(s, k + at, n)
  {
    FieldSkip(s[..k], s[k..], at, n);
    assert s[..k] + s[k..] == s;
  }
}
