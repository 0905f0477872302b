/** The .ico container the client builds around the icon bits it receives. */
module IconFile {
  import opened Bytes

  const ICON_HEADER_SIZE := 22
  const BITMAP_HEADER_SIZE := 40
  const HEADERS_SIZE := 62

  /** ICON_HEADER with its one ICON_DIR_ENTRY; wide fields are cut to the width of their slot. */
  function IcoHeader(width: u32, height: u32, bpp: u32, n: nat): (b: seq<byte>)
    requires BITMAP_HEADER_SIZE + n < U32_RANGE
    ensures |b| == ICON_HEADER_SIZE
  {
    LE16(0) + LE16(1) + LE16(1) + [width % 0x100] + [height % 0x100] + [0] + [0] + LE16(0) + LE16(bpp % 0x1_0000)
    + LE32(BITMAP_HEADER_SIZE + n) + LE32(ICON_HEADER_SIZE)
  }

  /** BITMAPINFOHEADER; the stored height is doubled, as an icon's mask asks for. */
  function BitmapHeader(width: u32, height: u32, bpp: u32, n: u32): (b: seq<byte>)
    ensures |b| == BITMAP_HEADER_SIZE
  {
    BitmapShape(width, height, bpp) + BitmapFormat(n)
  }

  /** biSize, biWidth, biHeight, biPlanes, biBitCount. */
  function BitmapShape(width: u32, height: u32, bpp: u32): (b: seq<byte>)
    ensures |b| == 16
  {
    LE32(BITMAP_HEADER_SIZE) + LE32(width) + LE32(2 * height % U32_RANGE) + LE16(1) + LE16(bpp % 0x1_0000)
  }

  /** biCompression (BI_RGB), biSizeImage, resolution and palette fields. */
  function BitmapFormat(n: u32): (b: seq<byte>)
    ensures |b| == 24
  {
    LE32(0) + LE32(n) + LE32(0) + LE32(0) + LE32(0) + LE32(0)
  }

  function Container(width: u32, height: u32, bpp: u32, bits: seq<byte>): (b: seq<byte>)
    requires HEADERS_SIZE + |bits| < U32_RANGE
    ensures |b| == HEADERS_SIZE + |bits|
  {
    IcoHeader(width, height, bpp, |bits|) + BitmapHeader(width, height, bpp, |bits|) + bits
  }

  method PutBYTE(a: array<byte>, at: nat, v: byte) returns (next: nat)
    requires at < a.Length
    modifies a
    ensures next == at + 1 && a[..next] == old(a[..at]) + [v]
    ensures forall i | next <= i < a.Length :: a[i] == old(a[i])
  {
    a[at] := v;
    next := at + 1;
  }

  method PutWORD(a: array<byte>, at: nat, v: u16) returns (next: nat)
    requires at + 2 <= a.Length
    modifies a
    ensures next == at + 2 && a[..next] == old(a[..at]) + LE16(v)
    ensures forall i | next <= i < a.Length :: a[i] == old(a[i])
  {
    var b := LE16(v);
    a[at], a[at + 1] := b[0], b[1];
    next := at + 2;
  }

  method PutDWORD(a: array<byte>, at: nat, v: u32) returns (next: nat)
    requires at + 4 <= a.Length
    modifies a
    ensures next == at + 4 && a[..next] == old(a[..at]) + LE32(v)
    ensures forall i | next <= i < a.Length :: a[i] == old(a[i])
  {
    hide LE16;
    var b := LE32(v);
    a[at], a[at + 1], a[at + 2], a[at + 3] := b[0], b[1], b[2], b[3];
    next := at + 4;
  }

  method PutIcoHeader(a: array<byte>, width: u32, height: u32, bpp: u32, n: nat)
    requires HEADERS_SIZE + n < U32_RANGE && a.Length >= ICON_HEADER_SIZE
    modifies a
    ensures a[..ICON_HEADER_SIZE] == IcoHeader(width, height, bpp, n)
    ensures forall i | ICON_HEADER_SIZE <= i < a.Length :: a[i] == old(a[i])
  {
    hide LE16, LE32;
    var at := PutWORD(a, 0, 0);   // idReserved
    at := PutWORD(a, at, 1);      // idType
    at := PutWORD(a, at, 1);      // idCount
    at := PutBYTE(a, at, width % 0x100);
    at := PutBYTE(a, at, height % 0x100);
    ghost var first := a[..at];
    assert first == LE16(0) + LE16(1) + LE16(1) + [width % 0x100] + [height % 0x100];
    at := PutBYTE(a, at, 0);      // bColorCount
    at := PutBYTE(a, at, 0);      // bReserved
    at := PutWORD(a, at, 0);      // wPlanes
    at := PutWORD(a, at, bpp % 0x1_0000);
    at := PutDWORD(a, at, BITMAP_HEADER_SIZE + n);
    at := PutDWORD(a, at, ICON_HEADER_SIZE);
  }

  method PutBitmapHeader(a: array<byte>, width: u32, height: u32, bpp: u32, n: u32)
    requires a.Length >= HEADERS_SIZE
    modifies a
    ensures a[..HEADERS_SIZE] == old(a[..ICON_HEADER_SIZE]) + BitmapHeader(width, height, bpp, n)
    ensures forall i | HEADERS_SIZE <= i < a.Length :: a[i] == old(a[i])
  {
    hide BitmapShape, BitmapFormat;
    ghost var head := a[..ICON_HEADER_SIZE];
    PutBitmapShape(a, width, height, bpp);
    PutBitmapFormat(a, n);
    assert a[..HEADERS_SIZE] == head + (BitmapShape(width, height, bpp) + BitmapFormat(n));
  }

  method PutBitmapShape(a: array<byte>, width: u32, height: u32, bpp: u32)
    requires a.Length >= HEADERS_SIZE
    modifies a
    ensures a[..38] == old(a[..ICON_HEADER_SIZE]) + BitmapShape(width, height, bpp)
    ensures forall i | 38 <= i < a.Length :: a[i] == old(a[i])
  {
    hide LE16, LE32;
    ghost var head := a[..ICON_HEADER_SIZE];
    var at := PutDWORD(a, ICON_HEADER_SIZE, BITMAP_HEADER_SIZE);
    at := PutDWORD(a, at, width);
    at := PutDWORD(a, at, 2 * height % U32_RANGE);
    at := PutWORD(a, at, 1);
    at := PutWORD(a, at, bpp % 0x1_0000);
    assert a[..at] == head + BitmapShape(width, height, bpp);
  }

  method PutBitmapFormat(a: array<byte>, n: u32)
    requires a.Length >= HEADERS_SIZE
    modifies a
    ensures a[..HEADERS_SIZE] == old(a[..38]) + BitmapFormat(n)
    ensures forall i | HEADERS_SIZE <= i < a.Length :: a[i] == old(a[i])
  {
    hide LE16, LE32;
    ghost var head := a[..38];
    var at := PutDWORD(a, 38, 0);
    at := PutDWORD(a, at, n);
    at := PutDWORD(a, at, 0);
    at := PutDWORD(a, at, 0);
    at := PutDWORD(a, at, 0);
    at := PutDWORD(a, at, 0);
    assert a[..at] == head + BitmapFormat(n);
  }

  /**
   * Copies the bits behind the headers, then fills both headers in place.
   * Every index stays inside the allocation of exactly 62 + |bits| bytes.
   */
  method Build(width: u32, height: u32, bpp: u32, bits: seq<byte>) returns (file: array<byte>)
    requires HEADERS_SIZE + |bits| < U32_RANGE
    ensures fresh(file) && file[..] == Container(width, height, bpp, bits)
  {
    hide LE16, LE32, IcoHeader, BitmapHeader;
    file := new byte[HEADERS_SIZE + |bits|];
    forall i | 0 <= i < |bits| {
      file[HEADERS_SIZE + i] := bits[i];
    }
    assert file[HEADERS_SIZE..] == bits;
    PutIcoHeader(file, width, height, bpp, |bits|);
    PutBitmapHeader(file, width, height, bpp, |bits|);
    assert file[HEADERS_SIZE..] == bits;
    assert file[..] == file[..HEADERS_SIZE] + file[HEADERS_SIZE..];
  }

  // A reader of such files, written from the format alone.

  datatype DirEntry = DirEntry(width: byte, height: byte, planes: u16, bitCount: u16, bytesInRes: u32, imageOffset: u32)
  datatype BitmapInfo = BitmapInfo(width: u32, height: u32, planes: u16, bitCount: u16, compression: u32,
      sizeImage: u32)

  /** Reads the directory of a one-image icon file. */
  function ParseDirectory(file: seq<byte>): Option<DirEntry> {
    var (reserved, f1) :- ReadU16(file);
    var (kind, f2) :- ReadU16(f1);
    var (count, f3) :- ReadU16(f2);
    if reserved != 0 || kind != 1 || count != 1 || |f3| < 4 then None
    else
      var (planes, f4) :- ReadU16(f3[4..]);
      var (bitCount, f5) :- ReadU16(f4);
      var (bytes, f6) :- ReadU32(f5);
      var (offset, f7) :- ReadU32(f6);
      Some(DirEntry(f3[0], f3[1], planes, bitCount, bytes, offset))
  }

  /** The image a directory entry points at, when it lies inside the file. */
  function Image(file: seq<byte>, e: DirEntry): Option<seq<byte>> {
    if e.imageOffset + e.bytesInRes <= |file| then Some(file[e.imageOffset..][..e.bytesInRes]) else None
  }

  /** A bitmap image: header, then pixels. */
  function ParseBitmap(image: seq<byte>): Option<(BitmapInfo, seq<byte>)> {
    var (size, i1) :- ReadU32(image);
    if size != BITMAP_HEADER_SIZE || |image| < BITMAP_HEADER_SIZE then None
    else
      var (width, i2) :- ReadU32(i1);
      var (height, i3) :- ReadU32(i2);
      var (planes, i4) :- ReadU16(i3);
      var (bitCount, i5) :- ReadU16(i4);
      var (compression, i6) :- ReadU32(i5);
      var (sizeImage, i7) :- ReadU32(i6);
      Some((BitmapInfo(width, height, planes, bitCount, compression, sizeImage), image[BITMAP_HEADER_SIZE..]))
  }

  lemma DirectoryOfContainer(width: u32, height: u32, bpp: u32, bits: seq<byte>)
    requires HEADERS_SIZE + |bits| < U32_RANGE
    ensures ParseDirectory(Container(width, height, bpp, bits))
            == Some(DirEntry(width % 0x100, height % 0x100, 0, bpp % 0x1_0000, BITMAP_HEADER_SIZE + |bits|,
                ICON_HEADER_SIZE))
  {
    hide LE16, LE32, ReadU16, ReadU32, BitmapHeader;
    var image := BitmapHeader(width, height, bpp, |bits|) + bits;
    var f6 := LE32(ICON_HEADER_SIZE) + image;
    var f5 := LE32(BITMAP_HEADER_SIZE + |bits|) + f6;
    var f4 := LE16(bpp % 0x1_0000) + f5;
    var f3 := LE16(0) + f4;
    var f2 := [width % 0x100, height % 0x100, 0, 0] + f3;
    var f1 := LE16(1) + f2;
    var f0 := LE16(1) + f1;
    assert Container(width, height, bpp, bits) == LE16(0) + f0;
    ReadU16Of(0, f0);
    ReadU16Of(1, f1);
    ReadU16Of(1, f2);
    assert f2[4..] == f3;
    ReadU16Of(0, f4);
    ReadU16Of(bpp % 0x1_0000, f5);
    ReadU32Of(BITMAP_HEADER_SIZE + |bits|, f6);
    ReadU32Of(ICON_HEADER_SIZE, image);
  }

  lemma BitmapOfImage(width: u32, height: u32, bpp: u32, bits: seq<byte>)
    requires HEADERS_SIZE + |bits| < U32_RANGE
    ensures ParseBitmap(BitmapHeader(width, height, bpp, |bits|) + bits)
            == Some((BitmapInfo(width, 2 * height % U32_RANGE, 1, bpp % 0x1_0000, 0, |bits|), bits))
  {
    hide LE16, LE32, ReadU16, ReadU32;
    var i7 := LE32(0) + LE32(0) + LE32(0) + LE32(0) + bits;
    var i6 := LE32(|bits|) + i7;
    var i5 := LE32(0) + i6;
    var i4 := LE16(bpp % 0x1_0000) + i5;
    var i3 := LE16(1) + i4;
    var i2 := LE32(2 * height % U32_RANGE) + i3;
    var i1 := LE32(width) + i2;
    var image := BitmapHeader(width, height, bpp, |bits|) + bits;
    assert image == LE32(BITMAP_HEADER_SIZE) + i1;
    assert image[BITMAP_HEADER_SIZE..] == bits;
    ReadU32Of(BITMAP_HEADER_SIZE, i1);
    ReadU32Of(width, i2);
    ReadU32Of(2 * height % U32_RANGE, i3);
    ReadU16Of(1, i4);
    ReadU16Of(bpp % 0x1_0000, i5);
    ReadU32Of(0, i6);
    ReadU32Of(|bits|, i7);
  }

  /**
   * An icon reader finds the entry's image ending exactly at the end of the file, and in it
   * a bitmap header followed by exactly the bits received.
   */
  lemma ContainerReadsBack(width: u32, height: u32, bpp: u32, bits: seq<byte>)
    requires HEADERS_SIZE + |bits| < U32_RANGE
    ensures var file := Container(width, height, bpp, bits);
            exists e: DirEntry, info: BitmapInfo, image: seq<byte> ::
              && ParseDirectory(file) == Some(e)
              && e.imageOffset + e.bytesInRes == |file|
              && Image(file, e) == Some(image)
              && ParseBitmap(image) == Some((info, bits))
              && info.width == width && info.height == 2 * height % U32_RANGE && info.sizeImage == |bits|
              && e.bitCount == info.bitCount == bpp % 0x1_0000
  {
    hide LE16, LE32, ReadU16, ReadU32, ParseDirectory, ParseBitmap, BitmapHeader, IcoHeader;
    DirectoryOfContainer(width, height, bpp, bits);
    BitmapOfImage(width, height, bpp, bits);
    var file := Container(width, height, bpp, bits);
    var image := BitmapHeader(width, height, bpp, |bits|) + bits;
    assert file == IcoHeader(width, height, bpp, |bits|) + image;
    assert file[ICON_HEADER_SIZE..] == image;
    assert image[..|image|] == image;
    assert Image(file, ParseDirectory(file).value) == Some(image);
  }

  /** What an icon of this kind does not use is zero. */
  lemma UnusedIsZero(width: u32, height: u32, bpp: u32, bits: seq<byte>)
    requires HEADERS_SIZE + |bits| < U32_RANGE
    ensures var file := Container(width, height, bpp, bits);
            && file[8] == 0 && file[9] == 0
            && forall i | 46 <= i < 62 :: file[i] == 0
  {
    hide LE16;
    var header := IcoHeader(width, height, bpp, |bits|);
    var (shape, format) := (BitmapShape(width, height, bpp), BitmapFormat(|bits|));
    var file := Container(width, height, bpp, bits);
    assert file[8] == header[8] && file[9] == header[9];
    assert header[..6] == LE16(0) + LE16(1) + LE16(1);
    forall i | 46 <= i < 62
      ensures file[i] == 0
    {
      assert file[i] == (shape + format)[i - 22] == format[i - 38];
      ZeroWord();
    }
  }

  lemma ZeroWord()
    ensures LE32(0) == [0, 0, 0, 0]
  {
  }
}
