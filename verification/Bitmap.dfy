/** Pictures on the EGA screen: the chunks of a BMP file (player/src/sld/bmp.c and the
  non-scaling branches of player/src/sld/bitmap.c) and the four planes of the video
  memory (player/src/gfx/ega.c).
*/
module Bitmap {
  import opened Bits
  import opened Bytes

  const MAGIC: nat := 0x4D42
  const INFO_SIZE: nat := 40
  const V5_SIZE: nat := 124
  const RGB: nat := 0
  const BITFIELDS: nat := 3
  // As much of a picture as is read at once on DOS.
  const MAX_CHUNK: nat := 5120
  // The screen, the bytes of one of its lines, and those of a plane of the video memory.
  const SCREEN_WIDTH := 640
  const SCREEN_HEIGHT := 350
  const VIEWBOX_HEIGHT := 200
  const LINE := 80
  const MEMORY: nat := 0x1_0000

  // ----- Pixels and planes -----

  // A picture of four bits a pixel has the left pixel in the high nibble.
  function Nibble(s: seq<byte>, c: nat): nat
    requires c / 2 < |s|
  {
    if c % 2 == 0 then s[c / 2] / 0x10 else s[c / 2] % 0x10
  }

  function Digit(x: nat, k: nat): (d: nat)
    ensures d <= 1
  {
    if Bit(x, k) then 1 else 0
  }

  // A bit of each of n pixels, the first one uppermost.
  function Gather(s: seq<byte>, at: nat, plane: nat, n: nat): (g: nat)
    requires n == 0 || at + (n - 1) / 2 < |s|
    ensures g < Pow2(n)
  {
    if n == 0 then 0 else 2 * Gather(s, at, plane, n - 1) + Digit(Nibble(s[at..], n - 1), plane)
  }

  lemma {:induction false} GatherBit(s: seq<byte>, at: nat, plane: nat, n: nat, k: nat)
    requires k < n && at + (n - 1) / 2 < |s|
    ensures Bit(Gather(s, at, plane, n), n - 1 - k) == Bit(Nibble(s[at..], k), plane)
    decreases n
  {
    hide Nibble;
    var g, d := Gather(s, at, plane, n - 1), Digit(Nibble(s[at..], n - 1), plane);
    if k < n - 1 {
      GatherBit(s, at, plane, n - 1, k);
      assert (2 * g + d) / 2 == g;
    }
  }

  // The memory plane of a plane of the picture, and the other way round: red and blue change places.
  function OtherPlane(p: nat): (q: nat)
    requires p < 4
    ensures q < 4
  {
    if p == 3 then 3 else 2 - p
  }

  // ----- What is shown -----

  // Where the rows of a picture are on the screen: its upper left corner and size in cells of eight
  // pixels, and whether the first row is the lowest.
  datatype Place = Place(x: int, y: int, cells: nat, height: nat, flipped: bool)

  function LineOf(p: Place, row: nat): int { if p.flipped then p.y + p.height - 1 - row else p.y + row }

  function Start(p: Place, row: nat): int { LineOf(p, row) * LINE + p.x }

  // A far pointer stays in its segment: addresses go round.
  function Offset(n: int): (o: nat)
    ensures o < MEMORY
  {
    n % MEMORY
  }

  // How far an address is behind another one, going round.
  function Distance(from: int, a: int): nat { Offset(a - from) }

  lemma OffsetSum(n: int, k: int)
    ensures Offset(Offset(n) + k) == Offset(n + k)
  {
  }

  lemma DistanceSum(from: int, a: int)
    ensures Distance(from, Offset(a)) == Offset(a - from) == Distance(Offset(from), a)
  {
  }

  // One address is some steps behind another one.
  lemma DistanceIs(from: int, a: nat, c: nat)
    requires a < MEMORY && c < MEMORY
    ensures Distance(from, a) == c <==> a == Offset(from + c)
  {
  }

  predicate Covers(p: Place, row: nat, a: nat) { Distance(Start(p, row), a) < p.cells }

  // The last of some rows that is drawn over an address, or -1.
  function Top(p: Place, a: nat, rows: nat): (r: int)
    ensures -1 <= r < rows && (0 <= r ==> Covers(p, r, a))
    ensures forall j | 0 <= r < j < rows || (r < 0 && 0 <= j < rows) :: !Covers(p, j, a)
  {
    if rows == 0 then -1 else if Covers(p, rows - 1, a) then rows - 1 else Top(p, a, rows - 1)
  }

  // A plane of the memory after some rows are drawn on it.
  function Shown(before: seq<byte>, p: Place, rows: nat, cell: (nat, nat) -> byte): (after: seq<byte>)
    ensures |after| == |before|
  {
    seq(|before|, a requires 0 <= a < |before| => ByteOf(before, p, rows, cell, a))
  }

  function ByteOf(before: seq<byte>, p: Place, rows: nat, cell: (nat, nat) -> byte, a: nat): byte
    requires a < |before|
  {
    var r := Top(p, a, rows);
    if 0 <= r then cell(r, Distance(Start(p, r), a)) else before[a]
  }

  // One more row is one more line of bytes.
  lemma ShownRow(before: seq<byte>, p: Place, row: nat, cell: (nat, nat) -> byte, after: seq<byte>)
    requires |after| == |before|
    requires forall a | 0 <= a < |before| ::
      after[a] == if Distance(Start(p, row), a) < p.cells then cell(row, Distance(Start(p, row), a))
                  else Shown(before, p, row, cell)[a]
    ensures after == Shown(before, p, row + 1, cell)
  {
    hide LineOf, Start, Distance;
    forall a | 0 <= a < |before| ensures after[a] == Shown(before, p, row + 1, cell)[a] {
      assert Top(p, a, row + 1) == if Covers(p, row, a) then row else Top(p, a, row);
    }
  }

  // Drawing the next rows as a picture of their own is drawing on.
  lemma ChunkShown(before: seq<byte>, p: Place, top: nat, rows: nat, cell: (nat, nat) -> byte,
                   chunk: (nat, nat) -> byte)
    requires top + rows <= p.height
    requires forall row, c | 0 <= row < rows && 0 <= c < p.cells :: chunk(row, c) == cell(top + row, c)
    ensures Shown(Shown(before, p, top, cell), ChunkPlace(p, top, rows), rows, chunk)
            == Shown(before, p, top + rows, cell)
  {
    var q := ChunkPlace(p, top, rows);
    var all, step := Shown(before, p, top + rows, cell), Shown(Shown(before, p, top, cell), q, rows, chunk);
    forall a | 0 <= a < |before| ensures step[a] == all[a] {
      TopOfChunk(p, top, rows, a, rows);
      hide Top, LineOf;
      var r := Top(q, a, rows);
      if 0 <= r {
        var c := Distance(Start(q, r), a);
        assert chunk(r, c) == cell(top + r, c);
      }
    }
  }

  // Over an address: the last row of the chunk, or else the last one before it.
  lemma {:induction false} TopOfChunk(p: Place, top: nat, rows: nat, a: nat, n: nat)
    requires top + rows <= p.height && n <= rows
    ensures var r := Top(ChunkPlace(p, top, rows), a, n);
      && Top(p, a, top + n) == (if 0 <= r then top + r else Top(p, a, top))
      && (0 <= r ==> Start(ChunkPlace(p, top, rows), r) == Start(p, top + r))
  {
    if n != 0 {
      TopOfChunk(p, top, rows, a, n - 1);
    }
  }

  function ChunkPlace(p: Place, top: nat, rows: nat): Place
    requires top + rows <= p.height
  {
    p.(y := if p.flipped then p.y + p.height - (top + rows) else p.y + top, height := rows)
  }

  // ----- Drawing a chunk -----

  // The part of a picture that is in memory (gfx_bitmap), with its rows in bits.
  datatype Picture = Picture(width: nat, height: int, bpp: nat, opl: nat, offset: nat, top: nat, rows: nat)

  function Magnitude(x: int): nat { if x < 0 then -x else x }

  function Cells(width: nat): nat { (width + 7) / 8 }

  // The byte for eight pixels of a row on a plane of the picture.
  function CellOf(bpp: nat, opl: nat, plane: nat, bits: seq<byte>, row: nat, c: nat): byte {
    if bpp == 4 then
      (if row * opl + 4 * c + 4 <= |bits| then
         assert Pow2(8) == 0x100;
         Gather(bits, row * opl + 4 * c, plane, 8)
       else 0)
    else if row * opl + c < |bits| then bits[row * opl + c]
    else 0
  }

  function CellsOf(bpp: nat, opl: nat, plane: nat, bits: seq<byte>): (nat, nat) -> byte {
    (row: nat, c: nat) => CellOf(bpp, opl, plane, bits, row, c)
  }

  lemma NibbleDigits(s: seq<byte>, b: nat, plane: nat)
    requires b < |s| && plane < 4
    ensures Shr(s[b], 4 + plane) % 2 == Digit(Nibble(s, 2 * b), plane)
    ensures Shr(s[b], plane) % 2 == Digit(Nibble(s, 2 * b + 1), plane)
  {
    ShrBit(s[b], 4 + plane, 0);
    ShrBit(s[b], plane, 0);
    ShrBit(s[b], 4, plane);
    LowBit(s[b], 4, plane);
    assert Pow2(4) == 0x10;
    assert Shr(s[b], 4) == s[b] / 0x10 && Low(s[b], 4) == s[b] % 0x10;
  }

  lemma ShiftIn(g: nat, d: nat, n: nat)
    requires g < Pow2(n) && n < 8 && d <= 1
    ensures g * 2 % 0x100 == g * 2 && Or(g * 2, d) == 2 * g + d < 0x100
  {
    assert Pow2(1) == 2 && Pow2(7) == 0x80;
    hide Pow2, Or;
    OrDisjoint(g, d, 1);
    Pow2Le(n, 7);
  }

  lemma {:induction false} Pow2Le(m: nat, n: nat)
    requires m <= n
    ensures Pow2(m) <= Pow2(n)
  {
    if m < n {
      Pow2Le(m, n - 1);
    }
  }

  method DrawCell(bits: seq<byte>, at: nat, plane: nat) returns (cell: byte)
    requires at + 4 <= |bits| && plane < 4
    ensures cell == Gather(bits, at, plane, 8)
  {
    hide Nibble, Shr, Or, Pow2;
    cell := 0;
    for b := 0 to 4
      invariant cell == Gather(bits, at, plane, 2 * b)
    {
      NibbleDigits(bits[at..], b, plane);
      ghost var g := Gather(bits, at, plane, 2 * b);
      ShiftIn(g, Shr(bits[at + b], 4 + plane) % 2, 2 * b);
      cell := cell * 2 % 0x100;
      cell := Or(cell, Shr(bits[at + b], 4 + plane) % 2);
      ghost var g' := Gather(bits, at, plane, 2 * b + 1);
      assert cell == g';
      ShiftIn(g', Shr(bits[at + b], plane) % 2, 2 * b + 1);
      cell := cell * 2 % 0x100;
      cell := Or(cell, Shr(bits[at + b], plane) % 2);
      assert cell == Gather(bits, at, plane, 2 * b + 2);
    }
  }

  predicate ChunkOk(pic: Picture, bits: seq<byte>) {
    && pic.opl == Opl(pic.width, pic.bpp) && pic.rows <= Magnitude(pic.height)
    && pic.rows * pic.opl <= |bits| && Cells(pic.width) <= MEMORY
  }

  // Bytes of a row, a multiple of four.
  function Opl(width: nat, bpp: nat): nat { (width * bpp + 31) / 32 * 4 }

  lemma RowFits(pic: Picture, bits: seq<byte>, row: nat)
    requires ChunkOk(pic, bits) && row < pic.rows
    ensures pic.bpp == 4 ==> row * pic.opl + 4 * Cells(pic.width) <= |bits|
    ensures pic.bpp == 1 ==> row * pic.opl + Cells(pic.width) <= |bits|
  {
    assert (row + 1) * pic.opl <= pic.rows * pic.opl by { MulMono(row + 1, pic.rows, pic.opl); }
    assert pic.bpp == 4 ==> pic.opl == 4 * Cells(pic.width);
    assert pic.bpp == 1 ==> Cells(pic.width) <= pic.opl;
    assert (row + 1) * pic.opl == row * pic.opl + pic.opl;
  }

  function PlaceOf(pic: Picture, x: int, y: int, height: nat): Place {
    Place(x / 8, y, Cells(pic.width), height, pic.height < 0)
  }

  // One line of four bits a pixel on one plane.
  method DrawLine(mem: array<byte>, fb: nat, bits: seq<byte>, at: nat, cells: nat, plane: nat)
    requires mem.Length == MEMORY && cells <= MEMORY && at + 4 * cells <= |bits| && plane < 4
    modifies mem
    ensures forall a | 0 <= a < MEMORY ::
      mem[a] == if Distance(fb, a) < cells then Gather(bits, at + 4 * Distance(fb, a), plane, 8) else old(mem[a])
  {
    hide Gather, Distance, Offset;
    for c := 0 to cells
      invariant forall a | 0 <= a < MEMORY ::
        mem[a] == if Distance(fb, a) < c then Gather(bits, at + 4 * Distance(fb, a), plane, 8) else old(mem[a])
    {
      forall a | 0 <= a < MEMORY ensures Distance(fb, a) == c <==> a == Offset(fb + c) {
        DistanceIs(fb, a, c);
      }
      mem[Offset(fb + c)] := DrawCell(bits, at + 4 * c, plane);
    }
  }

  // The fill of a plane of the memory with the rows of a chunk.
  method DrawPlane(mem: array<byte>, pic: Picture, bits: seq<byte>, p: Place, plane: nat)
    requires mem.Length == MEMORY && pic.bpp == 4 && ChunkOk(pic, bits) && plane < 4
    requires p.cells == Cells(pic.width) && p.height == pic.rows && p.flipped == (pic.height < 0)
    modifies mem
    ensures mem[..] == Shown(old(mem[..]), p, pic.rows, CellsOf(4, pic.opl, plane, bits))
  {
    hide Gather, Top, Opl, Offset, Shown, CellsOf, ChunkOk;
    ghost var cell := CellsOf(4, pic.opl, plane, bits);
    ghost var before := mem[..];
    var fb, span: int := Offset(p.y * LINE + p.x), LINE;
    if pic.height < 0 {
      OffsetSum(p.y * LINE + p.x, (pic.rows - 1) * LINE);
      fb := Offset(fb + (pic.rows - 1) * LINE);
      span := -LINE;
    }
    var at := 0;
    ShownNothing(before, p, cell);
    for row := 0 to pic.rows
      invariant at == row * pic.opl && fb == Offset(Start(p, row))
      invariant span == if p.flipped then -LINE else LINE
      invariant mem[..] == Shown(before, p, row, cell)
    {
      DrawRow(mem, pic, bits, p, plane, row, fb, at, before);
      OffsetSum(Start(p, row), span);
      at := at + pic.opl;
      fb := Offset(fb + span);
    }
  }

  // One turn of the loop over the lines.
  method DrawRow(mem: array<byte>, pic: Picture, bits: seq<byte>, p: Place, plane: nat, row: nat, fb: nat, at: nat,
                 ghost before: seq<byte>)
    requires mem.Length == MEMORY == |before| && pic.bpp == 4 && ChunkOk(pic, bits) && plane < 4
    requires p.cells == Cells(pic.width) && p.height == pic.rows && row < pic.rows
    requires fb == Offset(Start(p, row)) && at == row * pic.opl
    requires mem[..] == Shown(before, p, row, CellsOf(4, pic.opl, plane, bits))
    modifies mem
    ensures mem[..] == Shown(before, p, row + 1, CellsOf(4, pic.opl, plane, bits))
  {
    hide Gather, Top, Opl, LineOf, Start, Distance, Offset, Shown;
    ghost var cell := CellsOf(4, pic.opl, plane, bits);
    RowFits(pic, bits, row);
    assert forall c | 0 <= c < p.cells :: cell(row, c) == Gather(bits, at + 4 * c, plane, 8);
    hide ChunkOk, CellsOf;
    SameDistances(Start(p, row));
    DrawLine(mem, fb, bits, at, p.cells, plane);
    ShownRow(before, p, row, cell, mem[..]);
  }

  lemma SameDistances(from: int)
    ensures forall a: nat | a < MEMORY :: Distance(Offset(from), a) == Distance(from, a)
  {
    forall a: nat | a < MEMORY ensures Distance(Offset(from), a) == Distance(from, a) {
      DistanceSum(from, a);
    }
  }

  lemma ShownNothing(before: seq<byte>, p: Place, cell: (nat, nat) -> byte)
    ensures Shown(before, p, 0, cell) == before
  {
  }

  // One line of one bit a pixel, on every plane the same.
  method CopyLine(mem: array<byte>, fb: nat, bits: seq<byte>, at: nat, cells: nat)
    requires mem.Length == MEMORY && cells <= MEMORY && at + cells <= |bits|
    modifies mem
    ensures forall a | 0 <= a < MEMORY ::
      mem[a] == if Distance(fb, a) < cells then bits[at + Distance(fb, a)] else old(mem[a])
  {
    hide Distance, Offset;
    for c := 0 to cells
      invariant forall a | 0 <= a < MEMORY ::
        mem[a] == if Distance(fb, a) < c then bits[at + Distance(fb, a)] else old(mem[a])
    {
      forall a | 0 <= a < MEMORY ensures Distance(fb, a) == c <==> a == Offset(fb + c) {
        DistanceIs(fb, a, c);
      }
      mem[Offset(fb + c)] := bits[at + c];
    }
  }

  method DrawMono(mem: array<byte>, pic: Picture, bits: seq<byte>, p: Place)
    requires mem.Length == MEMORY && pic.bpp == 1 && ChunkOk(pic, bits)
    requires p.cells == Cells(pic.width) && p.height == pic.rows && p.flipped == (pic.height < 0)
    modifies mem
    ensures forall plane: nat :: mem[..] == Shown(old(mem[..]), p, pic.rows, CellsOf(1, pic.opl, plane, bits))
  {
    hide Gather, Top, Opl, Offset, Shown, CellsOf, ChunkOk;
    ghost var cell := CellsOf(1, pic.opl, 0, bits);
    ghost var before := mem[..];
    var fb, span: int := Offset(p.y * LINE + p.x), LINE;
    if pic.height < 0 {
      OffsetSum(p.y * LINE + p.x, (pic.rows - 1) * LINE);
      fb := Offset(fb + (pic.rows - 1) * LINE);
      span := -LINE;
    }
    var at := 0;
    ShownNothing(before, p, cell);
    for row := 0 to pic.rows
      invariant at == row * pic.opl && fb == Offset(Start(p, row))
      invariant span == if p.flipped then -LINE else LINE
      invariant mem[..] == Shown(before, p, row, cell)
    {
      CopyRow(mem, pic, bits, p, row, fb, at, before);
      OffsetSum(Start(p, row), span);
      at := at + pic.opl;
      fb := Offset(fb + span);
    }
    SameOnPlanes(before, p, pic.rows, pic.opl, bits);
  }

  method CopyRow(mem: array<byte>, pic: Picture, bits: seq<byte>, p: Place, row: nat, fb: nat, at: nat,
                 ghost before: seq<byte>)
    requires mem.Length == MEMORY == |before| && pic.bpp == 1 && ChunkOk(pic, bits)
    requires p.cells == Cells(pic.width) && p.height == pic.rows && row < pic.rows
    requires fb == Offset(Start(p, row)) && at == row * pic.opl
    requires mem[..] == Shown(before, p, row, CellsOf(1, pic.opl, 0, bits))
    modifies mem
    ensures mem[..] == Shown(before, p, row + 1, CellsOf(1, pic.opl, 0, bits))
  {
    hide Gather, Top, Opl, LineOf, Start, Distance, Offset, Shown;
    ghost var cell := CellsOf(1, pic.opl, 0, bits);
    RowFits(pic, bits, row);
    assert forall c | 0 <= c < p.cells :: cell(row, c) == bits[at + c];
    hide ChunkOk, CellsOf;
    SameDistances(Start(p, row));
    CopyLine(mem, fb, bits, at, p.cells);
    ShownRow(before, p, row, cell, mem[..]);
  }

  lemma SameOnPlanes(before: seq<byte>, p: Place, rows: nat, opl: nat, bits: seq<byte>)
    ensures forall plane: nat ::
      Shown(before, p, rows, CellsOf(1, opl, plane, bits)) == Shown(before, p, rows, CellsOf(1, opl, 0, bits))
  {
    forall plane: nat
      ensures Shown(before, p, rows, CellsOf(1, opl, plane, bits)) == Shown(before, p, rows, CellsOf(1, opl, 0, bits))
    {
      ShownSame(before, p, rows, CellsOf(1, opl, plane, bits), CellsOf(1, opl, 0, bits));
    }
  }

  lemma ShownSame(before: seq<byte>, p: Place, rows: nat, cell: (nat, nat) -> byte, other: (nat, nat) -> byte)
    requires forall row: nat, c: nat | row < rows && c < p.cells :: cell(row, c) == other(row, c)
    ensures Shown(before, p, rows, cell) == Shown(before, p, rows, other)
  {
    hide LineOf;
    var s, t := Shown(before, p, rows, cell), Shown(before, p, rows, other);
    forall a | 0 <= a < |before| ensures s[a] == t[a] {
      var r := Top(p, a, rows);
      if 0 <= r {
        var c := Distance(Start(p, r), a);
        assert cell(r, c) == other(r, c);
      }
    }
  }

  predicate ScreenOk(planes: seq<array<byte>>) {
    |planes| == 4 && (forall i | 0 <= i < 4 :: planes[i].Length == MEMORY)
    && (forall i, j | 0 <= i < j < 4 :: planes[i] != planes[j])
  }

  // Each plane of the memory shows the plane of the picture that belongs to it, red and blue having changed places.
  method DrawBitmap(planes: seq<array<byte>>, pic: Picture, bits: seq<byte>, x: int, y: int) returns (ok: bool)
    requires ScreenOk(planes) && ChunkOk(pic, bits) && 0 < pic.rows
    modifies planes
    ensures ok <==> pic.bpp == 1 || pic.bpp == 4
    ensures !ok ==> forall i | 0 <= i < 4 :: planes[i][..] == old(planes[i][..])
    ensures ok ==> forall i | 0 <= i < 4 ::
      planes[i][..] == Shown(old(planes[i][..]), PlaceOf(pic, x, y, pic.rows), pic.rows,
                             CellsOf(pic.bpp, pic.opl, OtherPlane(i), bits))
  {
    if pic.bpp != 1 && pic.bpp != 4 {
      return false;
    }
    hide ChunkOk, Shown, CellsOf;
    var p := PlaceOf(pic, x, y, pic.rows);
    for plane := 0 to 4
      invariant forall i | 0 <= i < 4 && OtherPlane(i) >= plane :: planes[i][..] == old(planes[i][..])
      invariant forall i | 0 <= i < 4 && OtherPlane(i) < plane ::
        planes[i][..] == Shown(old(planes[i][..]), p, pic.rows, CellsOf(pic.bpp, pic.opl, OtherPlane(i), bits))
    {
      if pic.bpp == 1 {
        DrawMono(planes[OtherPlane(plane)], pic, bits, p);
      } else {
        DrawPlane(planes[OtherPlane(plane)], pic, bits, p, plane);
      }
    }
    ok := true;
  }

  // ----- Reading the chunks -----

  datatype Header = Header(magic: nat, size: nat, width: nat, height: int, planes: nat, bpp: nat, compression: nat,
                           red: nat, green: nat, blue: nat, offset: nat)

  predicate Supported(h: Header) {
    && h.magic == MAGIC && h.size in {INFO_SIZE, V5_SIZE} && h.planes == 1 && h.bpp in {1, 4, 32}
    && (h.compression == RGB
        || (h.compression == BITFIELDS && h.red == 0xFF_0000 && h.green == 0xFF00 && h.blue == 0xFF))
    && Opl(h.width, h.bpp) <= MAX_CHUNK
  }

  predicate HeaderOk(h: Header) { 0 < h.width }

  lemma OplPositive(width: nat, bpp: nat)
    requires width > 0 && bpp > 0
    ensures Opl(width, bpp) > 0
  {
    MulMono(1, width, bpp);
  }

  method Prepare(h: Header) returns (ok: bool, pic: Picture)
    requires HeaderOk(h)
    ensures ok <==> Supported(h)
    ensures ok ==> IsFirst(pic, h) && 1 <= pic.rows && MAX_CHUNK < (pic.rows + 1) * pic.opl
  {
    ok, pic := false, Picture(0, 0, 0, 0, 0, 0, 0);
    if h.magic != MAGIC || (h.size != INFO_SIZE && h.size != V5_SIZE) || h.planes != 1 {
      return;
    }
    if h.bpp != 1 && h.bpp != 4 && h.bpp != 32 {
      return;
    }
    if h.compression == BITFIELDS {
      if h.red != 0xFF_0000 || h.green != 0xFF00 || h.blue != 0xFF {
        return;
      }
    } else if h.compression != RGB {
      return;
    }
    OplPositive(h.width, h.bpp);
    var opl := Opl(h.width, h.bpp);
    if MAX_CHUNK < opl {
      return;
    }
    DivisionBounds(MAX_CHUNK, opl);
    ok, pic := true, Picture(h.width, -h.height, h.bpp, opl, h.offset, 0, MAX_CHUNK / opl);
  }

  lemma DivisionBounds(x: nat, d: nat)
    requires 0 < d <= x
    ensures 1 <= x / d && x / d * d <= x < (x / d + 1) * d
  {
  }

  // The rows of a whole picture in its file.
  function RowsOf(asset: seq<byte>, h: Header): seq<byte>
    requires Holds(asset, h)
  {
    asset[h.offset..h.offset + Magnitude(h.height) * Opl(h.width, h.bpp)]
  }

  predicate Holds(asset: seq<byte>, h: Header) {
    h.offset + Magnitude(h.height) * Opl(h.width, h.bpp) <= |asset|
  }

  lemma OplCells(width: nat)
    ensures Opl(width, 4) == 4 * Cells(width) && Cells(width) <= Opl(width, 1)
  {
  }

  lemma CellOfChunk(all: seq<byte>, bits: seq<byte>, bpp: nat, plane: nat, top: nat, rows: nat, row: nat, c: nat,
                    width: nat)
    requires bpp in {1, 4} && c < Cells(width) && row < rows
    requires var opl := Opl(width, bpp);
      top * opl + |bits| <= |all| && bits == all[top * opl..top * opl + |bits|] && |bits| == rows * opl
    ensures CellOf(bpp, Opl(width, bpp), plane, bits, row, c) == CellOf(bpp, Opl(width, bpp), plane, all, top + row, c)
  {
    hide *;
    OplCells(width);
    var opl := Opl(width, bpp);
    Product(top, row, opl);
    Product(row, 1, opl);
    MulMono(row + 1, rows, opl);
    CellShift(all, bits, top * opl, bpp, opl, plane, row, top + row, c);
  }

  lemma Product(a: nat, b: nat, d: nat)
    ensures (a + b) * d == a * d + b * d
  {
  }

  lemma CellShift(all: seq<byte>, bits: seq<byte>, from: nat, bpp: nat, opl: nat, plane: nat, row: nat, row': nat,
                  c: nat)
    requires from + |bits| <= |all| && bits == all[from..from + |bits|] && bpp in {1, 4}
    requires row' * opl == from + row * opl
    requires if bpp == 4 then row * opl + 4 * c + 4 <= |bits| else row * opl + c < |bits|
    ensures CellOf(bpp, opl, plane, bits, row, c) == CellOf(bpp, opl, plane, all, row', c)
  {
    hide Gather;
    if bpp == 4 {
      GatherShift(all, bits, from, row * opl + 4 * c, plane, 8);
    }
  }

  lemma {:induction false} GatherShift(all: seq<byte>, bits: seq<byte>, from: nat, at: nat, plane: nat, n: nat)
    requires from + |bits| <= |all| && bits == all[from..from + |bits|]
    requires at + (n + 1) / 2 <= |bits|
    ensures Gather(bits, at, plane, n) == Gather(all, from + at, plane, n)
  {
    if n > 0 {
      GatherShift(all, bits, from, at, plane, n - 1);
      assert bits[at..][(n - 1) / 2] == all[from + at..][(n - 1) / 2];
    }
  }

  // ----- A whole picture -----

  function Whole(h: Header, x: int, y: int): Place {
    Place(x / 8, y, Cells(h.width), Magnitude(h.height), h.height > 0)
  }

  // A chunk in memory: the rows of the file from top on.
  ghost predicate ChunkOf(pic: Picture, bits: seq<byte>, h: Header, asset: seq<byte>)
    requires Holds(asset, h)
  {
    var opl, all := Opl(h.width, h.bpp), RowsOf(asset, h);
    && pic.width == h.width && pic.height == -h.height && pic.bpp == h.bpp && pic.opl == opl
    && 1 <= pic.rows && pic.top + pic.rows <= Magnitude(h.height) && pic.rows * opl <= MAX_CHUNK
    && pic.offset == h.offset + pic.top * opl
    && |bits| == pic.rows * opl && pic.top * opl + |bits| <= |all| && bits == all[pic.top * opl..pic.top * opl + |bits|]
  }

  // What is on the screen when some rows of the file are drawn.
  ghost predicate DrawnTo(after: seq<byte>, before: seq<byte>, i: nat, h: Header, asset: seq<byte>, x: int, y: int,
                          rows: nat)
    requires Holds(asset, h) && i < 4
  {
    after == Shown(before, Whole(h, x, y), rows, CellsOf(h.bpp, Opl(h.width, h.bpp), OtherPlane(i), RowsOf(asset, h)))
  }

  // Chunk after chunk tiles the rows.
  lemma ChunkDraws(after: seq<byte>, middle: seq<byte>, before: seq<byte>, i: nat, pic: Picture, bits: seq<byte>,
                   h: Header, asset: seq<byte>, x: int, y: int)
    requires i < 4 && Holds(asset, h) && ChunkOf(pic, bits, h, asset) && h.bpp in {1, 4}
    requires DrawnTo(middle, before, i, h, asset, x, y, pic.top)
    requires after == Shown(middle, ChunkPlace(Whole(h, x, y), pic.top, pic.rows), pic.rows,
                            CellsOf(pic.bpp, pic.opl, OtherPlane(i), bits))
    ensures DrawnTo(after, before, i, h, asset, x, y, pic.top + pic.rows)
  {
    var p, plane := Whole(h, x, y), OtherPlane(i);
    var all := CellsOf(h.bpp, Opl(h.width, h.bpp), plane, RowsOf(asset, h));
    var chunk := CellsOf(pic.bpp, pic.opl, plane, bits);
    hide Shown, CellOf, Opl, OtherPlane, Cells;
    forall row, c | 0 <= row < pic.rows && 0 <= c < p.cells ensures chunk(row, c) == all(pic.top + row, c) {
      CellOfChunk(RowsOf(asset, h), bits, h.bpp, plane, pic.top, pic.rows, row, c, h.width);
    }
    ChunkShown(before, p, pic.top, pic.rows, all, chunk);
  }

  lemma ChunkIsPlaced(pic: Picture, bits: seq<byte>, h: Header, asset: seq<byte>, x: int, y: int)
    requires Holds(asset, h) && ChunkOf(pic, bits, h, asset) && Supported(h)
    ensures ChunkOk(pic, bits)
    ensures var at := if pic.height < 0 then y + Magnitude(h.height) - (pic.top + pic.rows) else y + pic.top;
      PlaceOf(pic, x, at, pic.rows) == ChunkPlace(Whole(h, x, y), pic.top, pic.rows)
  {
    CellsFit(h);
    hide Opl;
  }

  lemma CellsFit(h: Header)
    requires Supported(h)
    ensures Cells(h.width) <= Opl(h.width, h.bpp) <= MEMORY
  {
    assert h.bpp == 1 || h.bpp == 4 || h.bpp == 32;
  }

  lemma ChunkBounds(h: Header, asset: seq<byte>, top: nat, rows: nat)
    requires Holds(asset, h) && top + rows <= Magnitude(h.height)
    ensures var opl := Opl(h.width, h.bpp);
      && h.offset + top * opl + rows * opl <= |asset| && top * opl + rows * opl <= |RowsOf(asset, h)|
      && asset[h.offset + top * opl..h.offset + top * opl + rows * opl]
         == RowsOf(asset, h)[top * opl..top * opl + rows * opl]
  {
    hide Opl;
    var opl := Opl(h.width, h.bpp);
    Product(top, rows, opl);
    MulMono(top + rows, Magnitude(h.height), opl);
    SliceOfSlice(asset, h.offset, h.offset + Magnitude(h.height) * opl, top * opl, top * opl + rows * opl);
  }

  // The chunk behind one that is not the last.
  function Behind(pic: Picture): Picture {
    var top := pic.top + pic.rows;
    pic.(offset := pic.offset + pic.opl * pic.rows, top := top,
         rows := if top <= Magnitude(pic.height) < top + pic.rows then Magnitude(pic.height) - top else pic.rows)
  }

  lemma NextChunk(pic: Picture, bits: seq<byte>, h: Header, asset: seq<byte>)
    requires Holds(asset, h) && ChunkOf(pic, bits, h, asset) && pic.top + pic.rows < Magnitude(h.height)
    ensures pic.height == -h.height
    ensures var next := Behind(pic);
      next.offset + next.opl * next.rows <= |asset|
      && ChunkOf(next, asset[next.offset..next.offset + next.opl * next.rows], h, asset)
  {
    hide Opl;
    var next := Behind(pic);
    Product(pic.top, pic.rows, pic.opl);
    MulMono(next.rows, pic.rows, pic.opl);
    ChunkBounds(h, asset, next.top, next.rows);
  }

  // The first chunk, cut at the last row if there are fewer.
  ghost predicate IsFirst(pic: Picture, h: Header) {
    && pic.width == h.width && pic.height == -h.height && pic.bpp == h.bpp && pic.opl == Opl(h.width, h.bpp)
    && pic.offset == h.offset && pic.top == 0 && pic.rows * pic.opl <= MAX_CHUNK
  }

  lemma FirstIsChunk(pic: Picture, h: Header, asset: seq<byte>)
    requires IsFirst(pic, h) && Holds(asset, h) && pic.rows <= Magnitude(h.height)
    ensures pic.offset + pic.opl * pic.rows <= |asset|
    ensures 1 <= pic.rows ==> ChunkOf(pic, asset[pic.offset..pic.offset + pic.opl * pic.rows], h, asset)
  {
    ChunkBounds(h, asset, 0, pic.rows);
    hide Opl, Magnitude, RowsOf, Holds;
    assert 0 * Opl(h.width, h.bpp) == 0;
  }

  // ----- Where a picture is put -----

  datatype Across = Column(posx: nat) | Center | Right

  // Half of a number, towards zero.
  function Halved(n: int): int { if n < 0 then -(-n / 2) else n / 2 }

  function LeftOf(across: Across, width: nat): int {
    match across
    case Column(posx) => posx
    case Center => Halved(SCREEN_WIDTH - width)
    case Right => SCREEN_WIDTH - width
  }

  function LineAt(posy: word16): nat { posy * SCREEN_HEIGHT / VIEWBOX_HEIGHT }

  // A column is one of the screen; a picture at the right ends with the screen; one in the middle has as much to the
  // left as to the right of it, or hangs over as much, but for a column that is odd. Four of the 200 lines of a script
  // are seven lines of the screen.
  lemma Aligned(posx: nat, posy: word16, width: nat)
    ensures LeftOf(Column(posx), width) == posx
    ensures LeftOf(Right, width) + width == 640
    ensures var left, right := LeftOf(Center, width), 640 - (LeftOf(Center, width) + width);
      if width <= 640 then left <= right <= left + 1 else right <= left <= right + 1
    ensures 4 * LineAt(posy) <= 7 * posy < 4 * LineAt(posy) + 4
  {
  }

  // ----- The drawing of a picture by steps -----

  class Drawing {
    const planes: seq<array<byte>>
    var pic: Picture
    var bits: seq<byte>
    var x: int
    var y: int
    var height: nat
    var complete: bool

    constructor (planes: seq<array<byte>>)
      ensures this.planes == planes
    {
      this.planes := planes;
      pic, bits, x, y, height, complete := Picture(0, 0, 0, 0, 0, 0, 0), [], 0, 0, 0, false;
    }

    // All rows up to height are drawn, the next chunk is in memory.
    ghost predicate Valid(h: Header, asset: seq<byte>, left: int, top: int)
      reads this
    {
      && ScreenOk(planes) && HeaderOk(h) && Supported(h) && Holds(asset, h)
      && x == left && y == (if h.height > 0 then top + Magnitude(h.height) else top)
      && height <= Magnitude(h.height) && pic.height == -h.height
      && (height < Magnitude(h.height) ==> ChunkOf(pic, bits, h, asset) && pic.top == height)
      && (complete ==> height == Magnitude(h.height))
    }

    method Load(asset: seq<byte>, ghost h: Header)
      requires Holds(asset, h) && ChunkOf(pic, bits, h, asset) && pic.top + pic.rows < Magnitude(h.height)
      modifies this`pic, this`bits
      ensures ChunkOf(pic, bits, h, asset) && pic.top == old(pic.top) + old(pic.rows)
    {
      hide Opl, ChunkOf, Holds;
      NextChunk(pic, bits, h, asset);
      pic := pic.(offset := pic.offset + pic.opl * pic.rows);
      pic := pic.(top := pic.top + pic.rows);
      if Magnitude(pic.height) < pic.top + pic.rows {
        pic := pic.(rows := Magnitude(pic.height) - pic.top);
      }
      bits := asset[pic.offset..pic.offset + pic.opl * pic.rows];
    }

    method Start(asset: seq<byte>, h: Header, across: Across, posy: word16) returns (ok: bool)
      requires ScreenOk(planes) && HeaderOk(h) && Holds(asset, h)
      modifies this
      ensures ok <==> Supported(h)
      ensures ok ==>
        Valid(h, asset, LeftOf(across, h.width), LineAt(posy)) && height == 0 && !complete && pic.bpp == h.bpp
    {
      var first;
      ok, first := Prepare(h);
      if ok {
        LoadFirst(first, asset, h);
        x := match across
          case Column(posx) => posx
          case Center => Halved(SCREEN_WIDTH - pic.width)
          case Right => SCREEN_WIDTH - pic.width;
        y, height, complete := posy * SCREEN_HEIGHT / VIEWBOX_HEIGHT, 0, false;
        if pic.height < 0 {
          y := y - pic.height;
        }
      }
    }

    method LoadFirst(first: Picture, asset: seq<byte>, ghost h: Header)
      requires IsFirst(first, h) && Holds(asset, h) && 1 <= first.rows
      modifies this`pic, this`bits
      ensures IsFirst(pic, h) && (0 < Magnitude(h.height) ==> ChunkOf(pic, bits, h, asset))
    {
      hide Opl, Holds, ChunkOf;
      pic := first;
      if Magnitude(pic.height) < pic.top + pic.rows {
        MulMono(Magnitude(pic.height), pic.rows, pic.opl);
        pic := pic.(rows := Magnitude(pic.height) - pic.top);
      }
      FirstIsChunk(pic, h, asset);
      bits := asset[pic.offset..pic.offset + pic.opl * pic.rows];
    }

    // One call: nothing left to do, or the chunk in memory is drawn and the next one read.
    method Read(asset: seq<byte>, ghost h: Header, ghost left: int, ghost top: int, ghost before: seq<seq<byte>>)
      returns (ok: bool)
      requires Valid(h, asset, left, top) && !complete && |before| == 4 && pic.bpp == h.bpp
      requires forall i | 0 <= i < 4 :: DrawnTo(planes[i][..], before[i], i, h, asset, left, top, height)
      modifies this, planes
      ensures ok <==> old(height) == Magnitude(h.height) || h.bpp in {1, 4}
      ensures ok ==> Valid(h, asset, left, top) && pic.bpp == h.bpp
      ensures ok ==> complete == (old(height) == Magnitude(h.height)) && (!complete ==> height > old(height))
      ensures ok ==> forall i | 0 <= i < 4 :: DrawnTo(planes[i][..], before[i], i, h, asset, left, top, height)
      ensures !ok ==> forall i | 0 <= i < 4 :: planes[i][..] == old(planes[i][..])
    {
      hide Opl, Supported, DrawnTo, Shown;
      if Magnitude(pic.height) <= height {
        complete, ok := true, true;
        return;
      }
      ChunkIsPlaced(pic, bits, h, asset, left, top);
      var at := if pic.height < 0 then y - (pic.top + pic.rows) else y + pic.top;
      ok := DrawBitmap(planes, pic, bits, x, at);
      if !ok {
        return;
      }
      forall i | 0 <= i < 4 ensures DrawnTo(planes[i][..], before[i], i, h, asset, left, top, height + pic.rows) {
        ChunkDraws(planes[i][..], old(planes[i][..]), before[i], i, pic, bits, h, asset, left, top);
      }
      height := height + pic.rows;
      if height < Magnitude(pic.height) {
        Load(asset, h);
      }
    }

    // All the calls for one picture.
    method Execute(asset: seq<byte>, h: Header, across: Across, posy: word16) returns (ok: bool)
      requires ScreenOk(planes) && HeaderOk(h) && Holds(asset, h)
      modifies this, planes
      ensures ok <==> Supported(h) && (h.height == 0 || h.bpp in {1, 4})
      ensures ok ==> forall i | 0 <= i < 4 ::
        DrawnTo(planes[i][..], old(planes[i][..]), i, h, asset, LeftOf(across, h.width), LineAt(posy),
                Magnitude(h.height))
      ensures !ok ==> forall i | 0 <= i < 4 :: planes[i][..] == old(planes[i][..])
    {
      ghost var before := [planes[0][..], planes[1][..], planes[2][..], planes[3][..]];
      ghost var left, top := LeftOf(across, h.width), LineAt(posy);
      ok := Start(asset, h, across, posy);
      if !ok {
        return;
      }
      forall i | 0 <= i < 4 ensures DrawnTo(planes[i][..], before[i], i, h, asset, left, top, 0) {
        ShownNothing(before[i], Whole(h, left, top),
                     CellsOf(h.bpp, Opl(h.width, h.bpp), OtherPlane(i), RowsOf(asset, h)));
      }
      hide Opl, DrawnTo, Shown;
      while !complete
        invariant Valid(h, asset, left, top) && pic.bpp == h.bpp
        invariant forall i | 0 <= i < 4 :: DrawnTo(planes[i][..], before[i], i, h, asset, left, top, height)
        invariant height > 0 ==> h.bpp in {1, 4}
        invariant height == 0 ==> forall i | 0 <= i < 4 :: planes[i][..] == before[i]
        decreases Magnitude(h.height) - height, !complete
      {
        ok := Read(asset, h, left, top, before);
        if !ok {
          return;
        }
      }
    }
  }

  // ----- Pixels -----

  // The bit of a pixel of the screen on one plane of the memory.
  predicate ScreenBit(mem: seq<byte>, u: nat, v: nat) {
    v * LINE + u / 8 < |mem| && Bit(mem[v * LINE + u / 8], 7 - u % 8)
  }

  // The colour of a pixel of the file: sixteen colours, or black and white.
  function ColourOf(bpp: nat, rows: seq<byte>, opl: nat, row: nat, c: nat): nat {
    if bpp == 4 then if row * opl + c / 2 < |rows| then Nibble(rows[row * opl..], c) else 0
    else if row * opl + c / 8 < |rows| && Bit(rows[row * opl + c / 8], 7 - c % 8) then 0xF
    else 0
  }

  // What a pixel of the screen is once a picture is drawn: the pixel of the last row drawn over it, with red and
  // blue exchanged, or what it was before.
  lemma EveryScreenPixel(after: seq<byte>, before: seq<byte>, i: nat, h: Header, asset: seq<byte>, x: int, y: int,
                         u: nat, v: nat)
    requires i < 4 && h.bpp in {1, 4} && Holds(asset, h) && |before| == MEMORY
    requires DrawnTo(after, before, i, h, asset, x, y, Magnitude(h.height))
    requires v * LINE + u / 8 < MEMORY
    ensures var p, a := Whole(h, x, y), v * LINE + u / 8;
      var row := Top(p, a, p.height);
      if row < 0 then ScreenBit(after, u, v) <==> ScreenBit(before, u, v)
      else ScreenBit(after, u, v) <==>
        Bit(ColourOf(h.bpp, RowsOf(asset, h), Opl(h.width, h.bpp), row, 8 * Distance(Start(p, row), a) + u % 8),
            OtherPlane(i))
  {
    var a: nat := v * LINE + u / 8;
    hide *;
    var p, plane := Whole(h, x, y), OtherPlane(i);
    var rows, opl := RowsOf(asset, h), Opl(h.width, h.bpp);
    DrawnMeans(after, before, i, h, asset, x, y);
    ShownByte(before, p, p.height, CellsOf(h.bpp, opl, plane, rows), a);
    ScreenBitAt(after, u, v);
    ScreenBitAt(before, u, v);
    var row := Top(p, a, p.height);
    if 0 <= row {
      var c := Distance(Start(p, row), a);
      CoversMeans(p, row, a);
      CellFits(h.width, h.bpp, Magnitude(h.height), row, c);
      CellPixel(h.bpp, opl, plane, rows, row, c, u % 8);
    }
  }

  lemma DrawnMeans(after: seq<byte>, before: seq<byte>, i: nat, h: Header, asset: seq<byte>, x: int, y: int)
    requires i < 4 && Holds(asset, h) && DrawnTo(after, before, i, h, asset, x, y, Magnitude(h.height))
    ensures var p := Whole(h, x, y);
      && p.height == Magnitude(h.height) && p.x == x / 8 && p.cells == Cells(h.width) && p.y == y
      && (p.flipped <==> h.height > 0)
      && after == Shown(before, p, p.height, CellsOf(h.bpp, Opl(h.width, h.bpp), OtherPlane(i), RowsOf(asset, h)))
    ensures |RowsOf(asset, h)| == Magnitude(h.height) * Opl(h.width, h.bpp)
  {
    hide Opl, Shown, CellOf, Magnitude, Cells;
  }

  lemma ShownByte(before: seq<byte>, p: Place, rows: nat, cell: (nat, nat) -> byte, a: nat)
    requires a < |before|
    ensures var r := Top(p, a, rows);
      Shown(before, p, rows, cell)[a] == if 0 <= r then cell(r, Distance(Start(p, r), a)) else before[a]
  {
    hide Top, Start, Distance;
  }

  lemma ScreenBitAt(mem: seq<byte>, u: nat, v: nat)
    requires v * LINE + u / 8 < |mem|
    ensures ScreenBit(mem, u, v) <==> Bit(mem[v * LINE + u / 8], 7 - u % 8)
  {
  }

  lemma CoversMeans(p: Place, row: nat, a: nat)
    requires Covers(p, row, a)
    ensures Distance(Start(p, row), a) < p.cells
  {
    hide Start, Distance;
  }

  lemma CellFits(width: nat, bpp: nat, height: nat, row: nat, c: nat)
    requires bpp in {1, 4} && row < height && c < Cells(width)
    ensures bpp == 4 ==> row * Opl(width, 4) + 4 * c + 4 <= height * Opl(width, 4)
    ensures bpp == 1 ==> row * Opl(width, 1) + c < height * Opl(width, 1)
  {
    OplCells(width);
    var opl := Opl(width, bpp);
    hide Opl, Cells;
    Product(row, 1, opl);
    MulMono(row + 1, height, opl);
  }

  // The bit of a pixel in the byte of its cell.
  lemma CellPixel(bpp: nat, opl: nat, plane: nat, s: seq<byte>, row: nat, c: nat, k: nat)
    requires bpp in {1, 4} && k < 8 && plane < 4
    requires if bpp == 4 then row * opl + 4 * c + 4 <= |s| else row * opl + c < |s|
    ensures Bit(CellsOf(bpp, opl, plane, s)(row, c), 7 - k) <==> Bit(ColourOf(bpp, s, opl, row, 8 * c + k), plane)
  {
    if bpp == 4 {
      GatherBit(s, row * opl + 4 * c, plane, 8, k);
      NibbleInCell(s, row * opl, c, k);
      hide Gather, Nibble, Bit;
    } else {
      White(plane);
      hide Bit;
      assert (8 * c + k) / 8 == c && (8 * c + k) % 8 == k;
      ZeroBit(plane);
    }
  }

  lemma White(plane: nat)
    requires plane < 4
    ensures Bit(0xF, plane)
  {
    assert Bit(1, 0) && Bit(3, 1) && Bit(7, 2) && Bit(15, 3);
  }

  lemma NibbleInCell(s: seq<byte>, at: nat, c: nat, k: nat)
    requires k < 8 && at + 4 * c + 4 <= |s|
    ensures at + (8 * c + k) / 2 < |s| && Nibble(s[at + 4 * c..], k) == Nibble(s[at..], 8 * c + k)
  {
    assert (8 * c + k) % 2 == k % 2 && (8 * c + k) / 2 == 4 * c + k / 2;
  }

  // ----- The pixels of a picture -----

  // The rows are not so many that one comes round to another.
  predicate Fits(p: Place) { p.height == 0 || (p.height - 1) * LINE + p.cells <= MEMORY }

  // A cell of a row is hidden by a later row that begins before it on the same line, or that runs over it from the
  // line above.
  lemma OtherRow(p: Place, row: nat, j: nat, c: nat)
    requires Fits(p) && row < j < p.height && c < p.cells
    ensures Covers(p, j, Offset(Start(p, row) + c))
            <==> if p.flipped then c + LINE * (j - row) < p.cells else LINE * (j - row) <= c
  {
    DistanceSum(Start(p, j), Start(p, row) + c);
    var d := Start(p, row) + c - Start(p, j);
    assert d == c + (if p.flipped then LINE * (j - row) else -LINE * (j - row));
    assert LINE * (j - row) <= LINE * (p.height - 1);
    GoesRound(d);
  }

  lemma GoesRound(n: int)
    ensures 0 <= n < MEMORY ==> Offset(n) == n
    ensures 0 <= n + MEMORY < MEMORY ==> Offset(n) == n + MEMORY
  {
  }

  // A cell of a row is hidden by no other row exactly if it is in the last one, or the next one does not come to it.
  lemma OwnRow(p: Place, row: nat, c: nat)
    requires Fits(p) && row < p.height && c < p.cells
    ensures Top(p, Offset(Start(p, row) + c), p.height) == row
            <==> row + 1 == p.height || if p.flipped then p.cells <= LINE + c else c < LINE
  {
    hide Offset, Distance, Start, Covers;
    var a := Offset(Start(p, row) + c);
    OwnCell(p, row, c);
    if row + 1 < p.height {
      OtherRow(p, row, row + 1, c);
    }
    forall j: nat | row < j < p.height && (if p.flipped then p.cells <= LINE + c else c < LINE)
      ensures !Covers(p, j, a)
    {
      OtherRow(p, row, j, c);
    }
  }

  lemma OwnCell(p: Place, row: nat, c: nat)
    requires c < p.cells && c < MEMORY
    ensures Covers(p, row, Offset(Start(p, row) + c))
    ensures Distance(Start(p, row), Offset(Start(p, row) + c)) == c
  {
    DistanceSum(Start(p, row), Start(p, row) + c);
    GoesRound(c);
  }

  // Two rows of 81 cells drawn upwards: the upper one hides the first cell of the lower one. Two rows of 82 cells in
  // the middle of the screen, drawn downwards: the lower one hides the last cell of the upper one on the screen.
  lemma LongRowsHide()
    ensures var p := Place(0, 0, 81, 2, true); Top(p, Offset(Start(p, 0)), 2) == 1
    ensures var p := Place(LeftOf(Center, 656) / 8, 0, Cells(656), 2, false);
      p.x + 80 == LINE - 1 && Top(p, Offset(Start(p, 0) + 80), 2) == 1
  {
    OwnRow(Place(0, 0, 81, 2, true), 0, 0);
    OwnRow(Place(-1, 0, 82, 2, false), 0, 80);
    OtherRow(Place(0, 0, 81, 2, true), 0, 1, 0);
    OtherRow(Place(-1, 0, 82, 2, false), 0, 1, 80);
  }

  // Every pixel of a picture that is inside of the screen has its colour there, on the line that belongs to its row,
  // however far the picture hangs over the edges, if the row drawn next does not come to it.
  lemma EveryPixelShown(after: seq<byte>, before: seq<byte>, i: nat, h: Header, asset: seq<byte>, x: int, y: int,
                        row: nat, c: nat)
    requires i < 4 && h.bpp in {1, 4} && Holds(asset, h) && Fits(Whole(h, x, y)) && |before| == MEMORY
    requires DrawnTo(after, before, i, h, asset, x, y, Magnitude(h.height))
    requires row < Magnitude(h.height) && c < h.width
    requires Inside(x / 8 * 8 + c, LineOf(Whole(h, x, y), row))
    requires row + 1 == Magnitude(h.height)
             || if h.height > 0 then Cells(h.width) <= LINE + c / 8 else c / 8 < LINE
    ensures ScreenBit(after, x / 8 * 8 + c, LineOf(Whole(h, x, y), row))
            <==> Bit(ColourOf(h.bpp, RowsOf(asset, h), Opl(h.width, h.bpp), row, c), OtherPlane(i))
  {
    hide *;
    var p := Whole(h, x, y);
    DrawnMeans(after, before, i, h, asset, x, y);
    InCells(h.width, c);
    InsideMeans(x / 8 * 8 + c, LineOf(p, row));
    OwnAddress(p, row, x, c);
    OwnRow(p, row, c / 8);
    EveryScreenPixel(after, before, i, h, asset, x, y, x / 8 * 8 + c, LineOf(p, row));
  }

  // The byte of the file a pixel is in, rows being padded to whole groups of four bytes.
  function FileByte(h: Header, asset: seq<byte>, row: nat, c: nat): (b: byte)
    requires h.bpp in {1, 4} && Holds(asset, h) && row < Magnitude(h.height) && c < h.width
    ensures var at := h.offset + row * ((h.width * h.bpp + 31) / 32 * 4) + c * h.bpp / 8; at < |asset| && b == asset[at]
  {
    PixelInFile(h, asset, row, c);
    asset[h.offset + row * ((h.width * h.bpp + 31) / 32 * 4) + c * h.bpp / 8]
  }

  lemma PixelInFile(h: Header, asset: seq<byte>, row: nat, c: nat)
    requires h.bpp in {1, 4} && Holds(asset, h) && row < Magnitude(h.height) && c < h.width
    ensures var opl := (h.width * h.bpp + 31) / 32 * 4;
      && c * h.bpp / 8 < opl && opl == Opl(h.width, h.bpp)
      && row * opl + c * h.bpp / 8 < Magnitude(h.height) * opl == |RowsOf(asset, h)|
      && h.offset + row * opl + c * h.bpp / 8 < |asset|
      && RowsOf(asset, h)[row * opl + c * h.bpp / 8] == asset[h.offset + row * opl + c * h.bpp / 8]
  {
    hide *;
    var opl := Opl(h.width, h.bpp);
    ByteInRow(h.width, h.bpp, c);
    InRows(row, Magnitude(h.height), opl, c * h.bpp / 8);
    RowByte(h, asset, row * opl + c * h.bpp / 8);
  }

  lemma InRows(row: nat, height: nat, opl: nat, k: nat)
    requires row < height && k < opl
    ensures row * opl + k < height * opl
  {
    Product(row, 1, opl);
    MulMono(row + 1, height, opl);
  }

  lemma RowByte(h: Header, asset: seq<byte>, k: nat)
    requires Holds(asset, h) && k < Magnitude(h.height) * Opl(h.width, h.bpp)
    ensures |RowsOf(asset, h)| == Magnitude(h.height) * Opl(h.width, h.bpp)
    ensures h.offset + k < |asset| && RowsOf(asset, h)[k] == asset[h.offset + k]
  {
    hide Opl, Magnitude;
  }

  lemma PixelByte(bpp: nat, c: nat)
    requires bpp in {1, 4}
    ensures c * bpp / 8 == if bpp == 4 then c / 2 else c / 8
  {
  }

  lemma ByteInRow(width: nat, bpp: nat, c: nat)
    requires bpp in {1, 4} && c < width
    ensures c * bpp / 8 < (width * bpp + 31) / 32 * 4 == Opl(width, bpp)
  {
  }

  // The four planes of a pixel of the screen: of a picture in sixteen colours, what is red in the file is on the first
  // plane and what is blue on the third; black and white are on all of them.
  lemma PixelOnPlanes(planes: seq<seq<byte>>, before: seq<seq<byte>>, h: Header, asset: seq<byte>, x: int, y: int,
                      row: nat, c: nat, u: nat, v: nat)
    requires |planes| == |before| == 4
    requires h.bpp in {1, 4} && Holds(asset, h) && Fits(Whole(h, x, y))
    requires forall i | 0 <= i < 4 ::
      |before[i]| == MEMORY && DrawnTo(planes[i], before[i], i, h, asset, x, y, Magnitude(h.height))
    requires row < Magnitude(h.height) && c < h.width
    requires u == x / 8 * 8 + c && v == (if h.height > 0 then y + h.height - 1 - row else y + row)
    requires Inside(u, v)
    requires row + 1 == Magnitude(h.height) || if h.height > 0 then Cells(h.width) <= 80 + c / 8 else c / 8 < 80
    ensures forall i | 0 <= i < 4 :: 80 * v + u / 8 < |planes[i]|
    ensures var b := FileByte(h, asset, row, c);
      var colour := if c % 2 == 0 then b / 16 else b % 16;
      var shown := i requires 0 <= i < 4 => Bit(planes[i][80 * v + u / 8], 7 - u % 8);
      if h.bpp == 4 then
        && (shown(0) <==> colour / 4 % 2 == 1) && (shown(1) <==> colour / 2 % 2 == 1)
        && (shown(2) <==> colour % 2 == 1) && (shown(3) <==> colour / 8 == 1)
      else forall i | 0 <= i < 4 :: shown(i) <==> Bit(b, 7 - c % 8)
  {
    hide *;
    forall i | 0 <= i < 4
      ensures 80 * v + u / 8 < |planes[i]|
      ensures Bit(planes[i][80 * v + u / 8], 7 - u % 8)
              <==> Bit(ColourOf(h.bpp, RowsOf(asset, h), Opl(h.width, h.bpp), row, c), OtherPlane(i))
    {
      PixelOnPlane(planes[i], before[i], i, h, asset, x, y, row, c, u, v);
    }
    ColourBits(h, asset, row, c);
  }

  lemma PixelOnPlane(after: seq<byte>, before: seq<byte>, i: nat, h: Header, asset: seq<byte>, x: int, y: int,
                     row: nat, c: nat, u: nat, v: nat)
    requires i < 4 && h.bpp in {1, 4} && Holds(asset, h) && Fits(Whole(h, x, y)) && |before| == MEMORY
    requires DrawnTo(after, before, i, h, asset, x, y, Magnitude(h.height))
    requires row < Magnitude(h.height) && c < h.width
    requires u == x / 8 * 8 + c && v == (if h.height > 0 then y + h.height - 1 - row else y + row)
    requires Inside(u, v)
    requires row + 1 == Magnitude(h.height) || if h.height > 0 then Cells(h.width) <= 80 + c / 8 else c / 8 < 80
    ensures 80 * v + u / 8 < |after|
    ensures Bit(after[80 * v + u / 8], 7 - u % 8)
            <==> Bit(ColourOf(h.bpp, RowsOf(asset, h), Opl(h.width, h.bpp), row, c), OtherPlane(i))
  {
    LineMeans(h, x, y, row);
    hide Magnitude, Opl, Cells, RowsOf, Bit, OtherPlane, ColourOf, DrawnTo, LineOf, Whole, Fits, Inside, ScreenBit;
    EveryPixelShown(after, before, i, h, asset, x, y, row, c);
    ScreenMemory(after, before, i, h, asset, x, y);
    InsideMeans(u, v);
    ScreenBitAt(after, u, v);
  }

  lemma LineMeans(h: Header, x: int, y: int, row: nat)
    ensures LineOf(Whole(h, x, y), row) == if h.height > 0 then y + h.height - 1 - row else y + row
  {
  }

  lemma ScreenMemory(after: seq<byte>, before: seq<byte>, i: nat, h: Header, asset: seq<byte>, x: int, y: int)
    requires i < 4 && Holds(asset, h) && DrawnTo(after, before, i, h, asset, x, y, Magnitude(h.height))
    ensures |after| == |before|
  {
  }

  // The digits of a colour of the file, on the memory planes they go to.
  lemma ColourBits(h: Header, asset: seq<byte>, row: nat, c: nat)
    requires h.bpp in {1, 4} && Holds(asset, h) && row < Magnitude(h.height) && c < h.width
    ensures var b := FileByte(h, asset, row, c);
      var colour := if c % 2 == 0 then b / 16 else b % 16;
      var n := ColourOf(h.bpp, RowsOf(asset, h), Opl(h.width, h.bpp), row, c);
      if h.bpp == 4 then
        && (Bit(n, OtherPlane(0)) <==> colour / 4 % 2 == 1) && (Bit(n, OtherPlane(1)) <==> colour / 2 % 2 == 1)
        && (Bit(n, OtherPlane(2)) <==> colour % 2 == 1) && (Bit(n, OtherPlane(3)) <==> colour / 8 == 1)
      else forall i | 0 <= i < 4 :: Bit(n, OtherPlane(i)) <==> Bit(b, 7 - c % 8)
  {
    hide *;
    ColourInFile(h, asset, row, c);
    var b := FileByte(h, asset, row, c);
    FirstBits(if c % 2 == 0 then b / 16 else b % 16);
    FirstBits(15);
    FirstBits(0);
    Planes();
  }

  lemma Planes()
    ensures OtherPlane(0) == 2 && OtherPlane(1) == 1 && OtherPlane(2) == 0 && OtherPlane(3) == 3
  {
  }

  lemma ColourInFile(h: Header, asset: seq<byte>, row: nat, c: nat)
    requires h.bpp in {1, 4} && Holds(asset, h) && row < Magnitude(h.height) && c < h.width
    ensures ColourOf(h.bpp, RowsOf(asset, h), Opl(h.width, h.bpp), row, c)
         == (var b := FileByte(h, asset, row, c);
             if h.bpp == 1 then if Bit(b, 7 - c % 8) then 15 else 0
             else if c % 2 == 0 then b / 16 else b % 16)
  {
    hide Opl, RowsOf, Magnitude, Bit, Holds, Nibble, FileByte;
    PixelInFile(h, asset, row, c);
    var rows, at := RowsOf(asset, h), row * Opl(h.width, h.bpp);
    PixelByte(h.bpp, c);
    assert rows[at + c * h.bpp / 8] == FileByte(h, asset, row, c);
    if h.bpp == 4 {
      NibbleOf(rows, at, c);
    }
  }

  lemma NibbleOf(s: seq<byte>, at: nat, c: nat)
    requires at + c / 2 < |s|
    ensures Nibble(s[at..], c) == if c % 2 == 0 then s[at + c / 2] / 16 else s[at + c / 2] % 16
  {
  }

  lemma FirstBits(n: nat)
    ensures Bit(n, 0) <==> n % 2 == 1
    ensures Bit(n, 1) <==> n / 2 % 2 == 1
    ensures Bit(n, 2) <==> n / 4 % 2 == 1
    ensures Bit(n, 3) <==> n / 8 % 2 == 1
  {
    assert n / 2 / 2 == n / 4 && n / 4 / 2 == n / 8;
    assert Bit(n, 1) == Bit(n / 2, 0);
    assert Bit(n, 2) == Bit(n / 2, 1) == Bit(n / 4, 0);
    assert Bit(n, 3) == Bit(n / 2, 2) == Bit(n / 4, 1) == Bit(n / 8, 0);
  }

  // On the screen, or on a line of the memory below it.
  predicate Inside(u: int, v: int) { 0 <= u < SCREEN_WIDTH && 0 <= v && v * LINE + u / 8 < MEMORY }

  lemma InsideMeans(u: int, v: int)
    requires Inside(u, v)
    ensures 0 <= u && 0 <= v && v * LINE + u / 8 < MEMORY
  {
  }

  lemma InCells(width: nat, c: nat)
    requires c < width
    ensures c / 8 < Cells(width)
  {
  }

  // The address of a pixel, and its place in the cell.
  lemma OwnAddress(p: Place, row: nat, x: int, c: nat)
    requires Fits(p) && p.x == x / 8 && row < p.height && c / 8 < p.cells
    requires Inside(x / 8 * 8 + c, LineOf(p, row))
    ensures var a := LineOf(p, row) * LINE + (x / 8 * 8 + c) / 8;
      a == Offset(Start(p, row) + c / 8) && Distance(Start(p, row), a) == c / 8
    ensures 8 * (c / 8) + (x / 8 * 8 + c) % 8 == c
  {
    assert (x / 8 * 8 + c) / 8 == x / 8 + c / 8 && (x / 8 * 8 + c) % 8 == c % 8;
    GoesRound(Start(p, row) + c / 8);
    OwnCell(p, row, c / 8);
  }

  // ----- The rest of the screen -----

  // A column of cells and a line of the screen that are under the picture.
  predicate Under(p: Place, u: nat, v: nat) { p.y <= v < p.y + p.height && p.x <= u < p.x + p.cells }

  ghost predicate NothingBeside(p: Place) {
    forall u: nat, v: nat | u < LINE && v * LINE + u < MEMORY && !Under(p, u, v) ::
      Top(p, v * LINE + u, p.height) < 0
  }

  // The lines of a picture are whole lines of the memory.
  predicate OnWholeLines(p: Place) { 0 <= p.y && p.y + p.height <= MEMORY / LINE && p.cells <= MEMORY }

  // Nothing else is touched exactly if the picture hangs over neither edge.
  lemma BesideExactly(p: Place)
    requires OnWholeLines(p) && 0 < p.height && 0 < p.cells
    ensures NothingBeside(p) <==> 0 <= p.x && p.x + p.cells <= LINE
  {
    hide Top;
    if 0 <= p.x && p.x + p.cells <= LINE {
      forall u: nat, v: nat | u < LINE && v * LINE + u < MEMORY && !Under(p, u, v)
        ensures Top(p, v * LINE + u, p.height) < 0
      {
        OnLines(p, u, v);
      }
    } else if LINE <= p.x || p.x + p.cells <= 0 {
      Beside(p, 0, 0);
    } else if p.x < 0 {
      LeftOver(p);
    } else {
      RightOver(p);
    }
  }

  lemma OnLines(p: Place, u: nat, v: nat)
    requires OnWholeLines(p) && 0 <= p.x && p.x + p.cells <= LINE
    requires u < LINE && v * LINE + u < MEMORY && !Under(p, u, v)
    ensures Top(p, v * LINE + u, p.height) < 0
  {
    var r := Top(p, v * LINE + u, p.height);
    if 0 <= r {
      CoversOnLine(p, r, u, v);
    }
  }

  lemma CoversOnLine(p: Place, row: nat, u: nat, v: nat)
    requires OnWholeLines(p) && 0 <= p.x && p.x + p.cells <= LINE && row < p.height
    requires u < LINE && v * LINE + u < MEMORY && Covers(p, row, v * LINE + u)
    ensures LineOf(p, row) == v && p.x <= u < p.x + p.cells
  {
    var line := LineOf(p, row);
    assert 0 <= line < MEMORY / LINE;
    GoesRound(v * LINE + u - Start(p, row));
    assert line * LINE + p.x <= v * LINE + u < line * LINE + p.x + p.cells;
  }

  // A cell that is drawn where nothing of the picture belongs.
  lemma Beside(p: Place, row: nat, c: nat)
    requires row < p.height && c < p.cells <= MEMORY
    requires var a := Offset(Start(p, row) + c); !Under(p, a % LINE, a / LINE)
    ensures !NothingBeside(p)
  {
    var a := Offset(Start(p, row) + c);
    OwnCell(p, row, c);
    hide Covers, Offset, Start;
    assert a / LINE * LINE + a % LINE == a;
    assert Top(p, a, p.height) >= row;
  }

  // What of the highest line is left of the screen is at the end of the line above, or of the memory.
  lemma LeftOver(p: Place)
    requires OnWholeLines(p) && 0 < p.height && p.x < 0 < p.x + p.cells
    ensures !NothingBeside(p)
  {
    var row := if p.flipped then p.height - 1 else 0;
    var c := -p.x - 1;
    assert Start(p, row) + c == p.y * LINE - 1;
    GoesRound(p.y * LINE - 1);
    Beside(p, row, c);
  }

  // What of the lowest line runs over the right edge is at the beginning of the line below.
  lemma RightOver(p: Place)
    requires OnWholeLines(p) && 0 < p.height && 0 <= p.x < LINE < p.x + p.cells
    ensures !NothingBeside(p)
  {
    var row := if p.flipped then 0 else p.height - 1;
    var c := LINE - p.x;
    assert Start(p, row) + c == (p.y + p.height) * LINE;
    GoesRound((p.y + p.height) * LINE);
    Beside(p, row, c);
  }

  // A pixel of the screen that no cell of the picture is on keeps its colour, if none runs over an edge.
  lemma EveryOtherPixelKept(after: seq<byte>, before: seq<byte>, i: nat, h: Header, asset: seq<byte>, x: int, y: int,
                            u: nat, v: nat)
    requires i < 4 && h.bpp in {1, 4} && Holds(asset, h) && OnWholeLines(Whole(h, x, y)) && |before| == MEMORY
    requires DrawnTo(after, before, i, h, asset, x, y, Magnitude(h.height))
    requires Inside(u, v) && 0 <= x && x / 8 + Cells(h.width) <= LINE && !Under(Whole(h, x, y), u / 8, v)
    ensures ScreenBit(after, u, v) <==> ScreenBit(before, u, v)
  {
    assert Whole(h, x, y).x >= 0 && u / 8 < LINE;
    assert v * LINE + u / 8 < MEMORY;
    hide *;
    DrawnMeans(after, before, i, h, asset, x, y);
    OnLines(Whole(h, x, y), u / 8, v);
    EveryScreenPixel(after, before, i, h, asset, x, y, u, v);
  }
}
