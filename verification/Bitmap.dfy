/** Uncompressed Windows bitmaps: the decoder, and a writer it must undo. */
module Bitmap {
  import opened Bytes
  import opened Wrappers

  /** Width, height and tightly packed RGB octets, top row first. */
  datatype Raster = Raster(width: nat, height: nat, rgb: seq<byte>)

  ghost predicate WellFormed(r: Raster) {
    0 < r.width && 0 < r.height && |r.rgb| == r.height * (r.width * 3)
  }

  datatype Header = Header(dataOffset: nat, width: nat, height: nat, topDown: bool, pixelBytes: nat)

  /** Octets per stored row: 24-bit rows pad to a multiple of four. */
  function Stride(width: nat, pixelBytes: nat): nat {
    if pixelBytes == 3 then (width * 3 + 3) / 4 * 4 else width * 4
  }

  /** The fields the decoder reads, refused where it refuses them. */
  function ReadHeader(bytes: seq<byte>): (r: Option<Header>)
    ensures r.Some? ==> Fits(bytes, r.value)
  {
    if |bytes| < 54 || bytes[0] != 'B' as int || bytes[1] != 'M' as int then None
    else
      var dataOffset, dibSize := ReadU32(bytes, 10).value, ReadU32(bytes, 14).value;
      var width, rawHeight := ReadU32(bytes, 18).value, Signed32(ReadU32(bytes, 22).value);
      var bpp, compression := ReadU16(bytes, 28).value, ReadU32(bytes, 30).value;
      var topDown := rawHeight < 0;
      var height := if topDown then -rawHeight else rawHeight;
      if dibSize < 40 || compression != 0 || width == 0 || height == 0 || (bpp != 24 && bpp != 32) then None
      else if |bytes| < dataOffset + Stride(width, bpp / 8) * height then None
      else Some(Header(dataOffset, width, height, topDown, bpp / 8))
  }

  /** Where the file keeps octet `c` of the pixel at (row, x). */
  function PixelAt(h: Header, row: nat, x: nat, c: nat): nat
    requires row < h.height
  {
    h.dataOffset + Offset(if h.topDown then row else h.height - 1 - row, Stride(h.width, h.pixelBytes),
                          Offset(x, h.pixelBytes, c))
  }

  lemma StrideHoldsRow(width: nat, pixelBytes: nat)
    requires pixelBytes == 3 || pixelBytes == 4
    ensures width * pixelBytes <= Stride(width, pixelBytes)
  {
  }

  ghost predicate Fits(bytes: seq<byte>, h: Header) {
    && 0 < h.width && 0 < h.height && (h.pixelBytes == 3 || h.pixelBytes == 4)
    && h.dataOffset + Stride(h.width, h.pixelBytes) * h.height <= |bytes|
  }

  /** Every octet of every pixel lies inside a file that holds all its rows. */
  lemma PixelInBounds(bytes: seq<byte>, h: Header, row: nat, x: nat, c: nat)
    requires Fits(bytes, h) && row < h.height && x < h.width && c < 3
    ensures PixelAt(h, row, x, c) < |bytes|
  {
    hide Stride, Offset;
    StrideHoldsRow(h.width, h.pixelBytes);
    var stride, source := Stride(h.width, h.pixelBytes), if h.topDown then row else h.height - 1 - row;
    InGrid(x, h.width, h.pixelBytes, c);
    InGrid(source, h.height, stride, Offset(x, h.pixelBytes, c));
  }

  /** The pixel at (row, x), BGR in the file and RGB in the picture. */
  function PixelRgb(bytes: seq<byte>, h: Header, row: nat, x: nat): (rgb: seq<byte>)
    requires Fits(bytes, h) && row < h.height && x < h.width
    ensures |rgb| == 3
  {
    PixelInBounds(bytes, h, row, x, 0);
    PixelInBounds(bytes, h, row, x, 1);
    PixelInBounds(bytes, h, row, x, 2);
    [bytes[PixelAt(h, row, x, 2)], bytes[PixelAt(h, row, x, 1)], bytes[PixelAt(h, row, x, 0)]]
  }

  ghost function RowPixels(bytes: seq<byte>, h: Header, row: nat, count: nat): (pixels: seq<seq<byte>>)
    requires Fits(bytes, h) && row < h.height && count <= h.width
    ensures |pixels| == count && EqualRows(pixels, 3)
    ensures forall x :: 0 <= x < count ==> pixels[x] == PixelRgb(bytes, h, row, x)
  {
    if count == 0 then [] else RowPixels(bytes, h, row, count - 1) + [PixelRgb(bytes, h, row, count - 1)]
  }

  ghost function RowRgb(bytes: seq<byte>, h: Header, row: nat): (rgb: seq<byte>)
    requires Fits(bytes, h) && row < h.height
    ensures |rgb| == h.width * 3
  {
    FlattenLength(RowPixels(bytes, h, row, h.width), 3);
    Flatten(RowPixels(bytes, h, row, h.width))
  }

  ghost function Rows(bytes: seq<byte>, h: Header, count: nat): (rows: seq<seq<byte>>)
    requires Fits(bytes, h) && count <= h.height
    ensures |rows| == count && EqualRows(rows, h.width * 3)
    ensures forall row :: 0 <= row < count ==> rows[row] == RowRgb(bytes, h, row)
  {
    if count == 0 then [] else Rows(bytes, h, count - 1) + [RowRgb(bytes, h, count - 1)]
  }

  /** The picture a file with this header shows. */
  ghost function Picture(bytes: seq<byte>, h: Header): Raster
    requires Fits(bytes, h)
  {
    Raster(h.width, h.height, Flatten(Rows(bytes, h, h.height)))
  }

  lemma PictureIsWellFormed(bytes: seq<byte>, h: Header)
    requires Fits(bytes, h)
    ensures WellFormed(Picture(bytes, h))
  {
    hide Flatten, Stride;
    FlattenLength(Rows(bytes, h, h.height), h.width * 3);
  }

  lemma RowStep(bytes: seq<byte>, h: Header, row: nat)
    requires Fits(bytes, h) && row < h.height
    ensures Flatten(Rows(bytes, h, row + 1)) == Flatten(Rows(bytes, h, row)) + RowRgb(bytes, h, row)
    ensures Flatten(Rows(bytes, h, 0)) == []
  {
    hide Fits, RowRgb;
    FlattenPush(Rows(bytes, h, row), RowRgb(bytes, h, row));
  }

  lemma PixelStep(bytes: seq<byte>, h: Header, row: nat, x: nat)
    requires Fits(bytes, h) && row < h.height && x < h.width
    ensures Flatten(RowPixels(bytes, h, row, x + 1)) == Flatten(RowPixels(bytes, h, row, x)) + PixelRgb(bytes, h, row, x)
    ensures Flatten(RowPixels(bytes, h, row, 0)) == []
    ensures Flatten(RowPixels(bytes, h, row, h.width)) == RowRgb(bytes, h, row)
  {
    hide Fits, PixelRgb;
    FlattenPush(RowPixels(bytes, h, row, x), PixelRgb(bytes, h, row, x));
  }

  // ------------------------------------------------------------------
  // Which files are bitmaps, octet by octet.
  // ------------------------------------------------------------------

  ghost function Word(bytes: seq<byte>, at: nat): nat
    requires at + 4 <= |bytes|
  {
    bytes[at] as int + 256 * bytes[at + 1] as int + 65536 * bytes[at + 2] as int + 16777216 * bytes[at + 3] as int
  }

  /** The three octets at `at` are the pixel's blue, green and red. */
  ghost predicate Holds(bytes: seq<byte>, at: nat, rgb: seq<byte>, i: nat) {
    && at + 2 < |bytes| && i + 2 < |rgb|
    && bytes[at] == rgb[i + 2] && bytes[at + 1] == rgb[i + 1] && bytes[at + 2] == rgb[i]
  }

  /** Where a file keeps its rows: the first octet, octets a row and a pixel, and
      whether the top row comes first. */
  datatype Place = Place(start: nat, stride: nat, depth: nat, topFirst: bool)

  ghost predicate PixelHeld(bytes: seq<byte>, r: Raster, p: Place, row: nat, x: nat)
    requires row < r.height
  {
    var stored := if p.topFirst then row else r.height - 1 - row;
    Holds(bytes, p.start + stored * p.stride + x * p.depth, r.rgb, row * (r.width * 3) + x * 3)
  }

  ghost predicate RowsHeld(bytes: seq<byte>, r: Raster, p: Place) {
    && p.start + p.stride * r.height <= |bytes|
    && forall row, x :: 0 <= row < r.height && 0 <= x < r.width ==> PixelHeld(bytes, r, p, row, x)
  }

  /** Rows are padded to the next multiple of four octets, and no further. */
  ghost predicate PaddedToFour(width: nat, p: Place) {
    p.stride % 4 == 0 && width * p.depth <= p.stride < width * p.depth + 4
  }

  /** The file says that it is an uncompressed bitmap at 24 or 32 bits, and holds
      the picture where it says. Heights of two to the 31st and more are negative:
      such a file keeps its top row first. */
  ghost predicate BitmapFile(bytes: seq<byte>, r: Raster, p: Place) {
    && WellFormed(r)
    && 54 <= |bytes| && bytes[0] == 0x42 && bytes[1] == 0x4D
    && Word(bytes, 10) == p.start
    && 40 <= Word(bytes, 14)
    && Word(bytes, 18) == r.width
    && (if p.topFirst then 0x8000_0000 <= Word(bytes, 22) == 0x1_0000_0000 - r.height
        else 0x8000_0000 > Word(bytes, 22) == r.height)
    && ((bytes[28] == 24 && p.depth == 3) || (bytes[28] == 32 && p.depth == 4)) && bytes[29] == 0
    && bytes[30] == 0 && bytes[31] == 0 && bytes[32] == 0 && bytes[33] == 0
    && PaddedToFour(r.width, p)
    && RowsHeld(bytes, r, p)
  }

  function PlaceOf(h: Header): Place {
    Place(h.dataOffset, Stride(h.width, h.pixelBytes), h.pixelBytes, h.topDown)
  }

  /** Only one stride pads a row to a multiple of four. */
  lemma PaddedIsStride(width: nat, p: Place)
    requires p.depth == 3 || p.depth == 4
    ensures PaddedToFour(width, p) <==> p.stride == Stride(width, p.depth)
  {
  }

  lemma RowAt(bytes: seq<byte>, h: Header, row: nat, x: nat, c: nat)
    requires Fits(bytes, h) && row < h.height && x < h.width && c < 3
    ensures Offset(x, 3, c) < h.width * 3
    ensures RowRgb(bytes, h, row)[Offset(x, 3, c)] == PixelRgb(bytes, h, row, x)[c]
  {
    hide Fits, PixelRgb, Flatten, Offset;
    var pixels := RowPixels(bytes, h, row, h.width);
    FlattenLength(pixels, 3);
    FlattenAt(pixels, 3, x, c);
  }

  /** Octet `c` of the pixel at (row, x) of the picture shown. */
  lemma PictureAt(bytes: seq<byte>, h: Header, row: nat, x: nat, c: nat)
    requires Fits(bytes, h) && row < h.height && x < h.width && c < 3
    ensures var i := Offset(row, h.width * 3, Offset(x, 3, c));
      i < |Picture(bytes, h).rgb| && Picture(bytes, h).rgb[i] == PixelRgb(bytes, h, row, x)[c]
  {
    hide Fits, PixelRgb, Flatten, Offset, RowRgb;
    RowAt(bytes, h, row, x, c);
    FlattenAt(Rows(bytes, h, h.height), h.width * 3, row, Offset(x, 3, c));
  }

  /** One pixel, told from where its octets lie. */
  lemma PixelAtIsHeld(bytes: seq<byte>, h: Header, row: nat, x: nat)
    requires Fits(bytes, h) && row < h.height && x < h.width
    ensures PixelHeld(bytes, Picture(bytes, h), PlaceOf(h), row, x)
  {
    hide Fits, Picture, Stride;
    PictureAt(bytes, h, row, x, 0);
    PictureAt(bytes, h, row, x, 1);
    PictureAt(bytes, h, row, x, 2);
    PixelInBounds(bytes, h, row, x, 2);
    PictureIsWellFormed(bytes, h);
    PictureSize(bytes, h);
  }

  lemma PictureSize(bytes: seq<byte>, h: Header)
    requires Fits(bytes, h)
    ensures Picture(bytes, h).width == h.width && Picture(bytes, h).height == h.height
  {
  }

  lemma PictureIsHeld(bytes: seq<byte>, h: Header)
    requires Fits(bytes, h)
    ensures RowsHeld(bytes, Picture(bytes, h), PlaceOf(h))
  {
    hide PixelHeld, Stride, Picture;
    PictureSize(bytes, h);
    forall row, x | 0 <= row < h.height && 0 <= x < h.width
      ensures PixelHeld(bytes, Picture(bytes, h), PlaceOf(h), row, x)
    {
      PixelAtIsHeld(bytes, h, row, x);
    }
  }

  lemma Divided(i: nat, count: nat, size: nat) returns (row: nat, k: nat)
    requires i < count * size
    ensures row < count && k < size && i == row * size + k
  {
    assert size != 0;
    row, k := i / size, i % size;
    assert count <= row ==> count * size <= row * size;
  }

  /** Rows at one place hold one picture of a size. */
  lemma HeldOnce(bytes: seq<byte>, r: Raster, s: Raster, p: Place)
    requires WellFormed(r) && WellFormed(s) && r.width == s.width && r.height == s.height
    requires RowsHeld(bytes, r, p) && RowsHeld(bytes, s, p)
    ensures r == s
  {
    forall i | 0 <= i < |r.rgb| ensures r.rgb[i] == s.rgb[i] {
      var row, k := Divided(i, r.height, r.width * 3);
      var x, c := Divided(k, r.width, 3);
      assert PixelHeld(bytes, r, p, row, x) && PixelHeld(bytes, s, p, row, x);
    }
    assert r.rgb == s.rgb;
  }

  /** The header the decoder reads from such a file. */
  lemma HeaderIsRead(bytes: seq<byte>, r: Raster, p: Place)
    requires BitmapFile(bytes, r, p)
    ensures ReadHeader(bytes) == Some(Header(p.start, r.width, r.height, p.topFirst, p.depth))
    ensures p == PlaceOf(ReadHeader(bytes).value)
  {
    hide PixelHeld, PaddedToFour, Stride;
    PaddedIsStride(r.width, p);
  }

  /** A file whose header is read is a bitmap of the picture it shows. */
  lemma ShownIsHeld(bytes: seq<byte>)
    requires ReadHeader(bytes).Some?
    ensures var h := ReadHeader(bytes).value; BitmapFile(bytes, Picture(bytes, h), PlaceOf(h))
  {
    hide RowsHeld, WellFormed, PaddedToFour, Stride, Rows, Flatten;
    var h := ReadHeader(bytes).value;
    PaddedIsStride(h.width, PlaceOf(h));
    PictureIsWellFormed(bytes, h);
    PictureIsHeld(bytes, h);
  }

  ghost function Answer(bytes: seq<byte>): Option<Raster> {
    if ReadHeader(bytes).Some? then Some(Picture(bytes, ReadHeader(bytes).value)) else None
  }

  /** The picture answered, if any, is the one the file's octets hold. */
  lemma AcceptsBitmapsExactly(bytes: seq<byte>, r: Raster)
    ensures Answer(bytes) == Some(r) <==> exists p :: BitmapFile(bytes, r, p)
  {
    hide ReadHeader, RowsHeld, PaddedToFour, Rows, Flatten, Stride;
    if ReadHeader(bytes).Some? {
      ShownIsHeld(bytes);
    }
    if p :| BitmapFile(bytes, r, p) {
      HeaderIsRead(bytes, r, p);
      HeldOnce(bytes, r, Picture(bytes, ReadHeader(bytes).value), p);
    }
  }

  /** On every octet string the decoder answers the picture its header
      describes, or nothing when the header is refused. */
  method DecodeBmp(bytes: seq<byte>) returns (r: Option<Raster>)
    ensures r.Some? <==> ReadHeader(bytes).Some?
    ensures r.Some? ==> r.value == Picture(bytes, ReadHeader(bytes).value) && WellFormed(r.value)
    ensures forall s :: r == Some(s) <==> exists p :: BitmapFile(bytes, s, p)
  {
    hide ReadHeader, BitmapFile, PixelAt, Flatten, Stride, Rows, RowPixels, RowRgb, WellFormed;
    forall s: Raster ensures Answer(bytes) == Some(s) <==> exists p :: BitmapFile(bytes, s, p) {
      AcceptsBitmapsExactly(bytes, s);
    }
    var header := ReadHeader(bytes);
    if header.None? {
      return None;
    }
    var h := header.value;
    var rgb: seq<byte> := [];
    RowStep(bytes, h, 0);
    for row := 0 to h.height
      invariant rgb == Flatten(Rows(bytes, h, row))
    {
      ghost var above := rgb;
      PixelStep(bytes, h, row, 0);
      for x := 0 to h.width
        invariant rgb == above + Flatten(RowPixels(bytes, h, row, x))
      {
        PixelStep(bytes, h, row, x);
        rgb := rgb + PixelRgb(bytes, h, row, x);
      }
      RowStep(bytes, h, row);
    }
    PictureIsWellFormed(bytes, h);
    return Some(Raster(h.width, h.height, rgb));
  }

  // ------------------------------------------------------------------
  // A writer.
  // ------------------------------------------------------------------

  /** Everything about a file that is not the picture: how it is laid out, and
      octets the decoder must ignore. `rest` is the tail of the header and
      whatever lies between it and the pixels. */
  datatype Layout = Layout(topDown: bool, pixelBytes: nat, fileSize: nat, reserved: nat, dibSize: nat, planes: nat,
                           rest: seq<byte>, alpha: byte, padding: byte)

  ghost predicate HeaderFits(width: nat, height: nat, l: Layout) {
    && 0 < width < U32 && 0 < height <= (if l.topDown then 0x8000_0000 else 0x7FFF_FFFF)
    && (l.pixelBytes == 3 || l.pixelBytes == 4)
    && l.fileSize < U32 && l.reserved < U32 && 40 <= l.dibSize < U32 && l.planes < U16
    && |l.rest| >= 20 && 34 + |l.rest| < U32
  }

  function StoredPixel(rgb: seq<byte>, l: Layout): (s: seq<byte>)
    requires |rgb| == 3 && (l.pixelBytes == 3 || l.pixelBytes == 4)
    ensures |s| == l.pixelBytes
  {
    [rgb[2], rgb[1], rgb[0]] + (if l.pixelBytes == 4 then [l.alpha] else [])
  }

  function StoredPixels(pixels: seq<seq<byte>>, l: Layout): (s: seq<seq<byte>>)
    requires (forall i :: 0 <= i < |pixels| ==> |pixels[i]| == 3) && (l.pixelBytes == 3 || l.pixelBytes == 4)
    ensures |s| == |pixels| && EqualRows(s, l.pixelBytes)
  {
    seq(|pixels|, i requires 0 <= i < |pixels| => StoredPixel(pixels[i], l))
  }

  function StoredRow(row: seq<byte>, width: nat, l: Layout): (s: seq<byte>)
    requires |row| == width * 3 && (l.pixelBytes == 3 || l.pixelBytes == 4)
    ensures |s| == Stride(width, l.pixelBytes)
  {
    var pixels := Flatten(StoredPixels(Slices(row, 3, width), l));
    FlattenLength(StoredPixels(Slices(row, 3, width), l), l.pixelBytes);
    StrideHoldsRow(width, l.pixelBytes);
    pixels + seq(Stride(width, l.pixelBytes) - |pixels|, i => l.padding)
  }

  function PictureRow(r: Raster, row: nat): (s: seq<byte>)
    requires WellFormed(r) && row < r.height
    ensures |s| == r.width * 3
  {
    Slices(r.rgb, r.width * 3, r.height)[row]
  }

  function StoredRows(r: Raster, l: Layout): (rows: seq<seq<byte>>)
    requires WellFormed(r) && (l.pixelBytes == 3 || l.pixelBytes == 4)
    ensures |rows| == r.height && EqualRows(rows, Stride(r.width, l.pixelBytes))
  {
    seq(r.height, i requires 0 <= i < r.height =>
      StoredRow(PictureRow(r, if l.topDown then i else r.height - 1 - i), r.width, l))
  }

  function StoredHeight(height: nat, topDown: bool): (word: nat)
    requires height <= (if topDown then 0x8000_0000 else 0x7FFF_FFFF)
    ensures word < U32 && Signed32(word) == (if topDown then -(height as int) else height)
  {
    Unsigned32(if topDown then -(height as int) else height)
  }

  function WriteHeader(width: nat, height: nat, l: Layout): (s: seq<byte>)
    requires HeaderFits(width, height, l)
    ensures |s| == 34
  {
    ['B' as int, 'M' as int] + WriteU32(l.fileSize) + WriteU32(l.reserved) + WriteU32(34 + |l.rest|)
      + WriteU32(l.dibSize) + WriteU32(width) + WriteU32(StoredHeight(height, l.topDown))
      + WriteU16(l.planes) + WriteU16(l.pixelBytes * 8) + WriteU32(0)
  }

  function WriteBmp(r: Raster, l: Layout): seq<byte>
    requires WellFormed(r) && HeaderFits(r.width, r.height, l)
  {
    WriteHeader(r.width, r.height, l) + l.rest + Flatten(StoredRows(r, l))
  }

  lemma HeaderFields(width: nat, height: nat, l: Layout, file: seq<byte>)
    requires HeaderFits(width, height, l) && |file| >= 54 && file[..34] == WriteHeader(width, height, l)
    ensures file[0] == 'B' as int && file[1] == 'M' as int
    ensures ReadU32(file, 10) == Some(34 + |l.rest|) && ReadU32(file, 14) == Some(l.dibSize)
    ensures ReadU32(file, 18) == Some(width)
    ensures ReadU32(file, 22) == Some(StoredHeight(height, l.topDown))
    ensures ReadU16(file, 28) == Some(l.pixelBytes * 8) && ReadU32(file, 30) == Some(0)
  {
    hide ReadU32, ReadU16, WriteU32, WriteU16, StoredHeight;
    var head := WriteHeader(width, height, l);
    assert forall i :: 0 <= i < 34 ==> file[i] == file[..34][i];
    assert file[10..14] == head[10..14] == WriteU32(34 + |l.rest|);
    assert file[14..18] == head[14..18] == WriteU32(l.dibSize);
    assert file[18..22] == head[18..22] == WriteU32(width);
    assert file[22..26] == head[22..26] == WriteU32(StoredHeight(height, l.topDown));
    assert file[28..30] == head[28..30] == WriteU16(l.pixelBytes * 8);
    assert file[30..34] == head[30..34] == WriteU32(0);
    ReadWrittenU32(file, 10, 34 + |l.rest|);
    ReadWrittenU32(file, 14, l.dibSize);
    ReadWrittenU32(file, 18, width);
    ReadWrittenU32(file, 22, StoredHeight(height, l.topDown));
    ReadWrittenU16(file, 28, l.pixelBytes * 8);
    ReadWrittenU32(file, 30, 0);
  }

  function HeaderOf(r: Raster, l: Layout): Header {
    Header(34 + |l.rest|, r.width, r.height, l.topDown, l.pixelBytes)
  }

  lemma HeaderReadsBack(r: Raster, l: Layout)
    requires WellFormed(r) && HeaderFits(r.width, r.height, l)
    ensures ReadHeader(WriteBmp(r, l)) == Some(HeaderOf(r, l))
  {
    hide ReadU32, ReadU16, Flatten, StoredRows, WriteHeader, WellFormed, StoredHeight, Stride;
    var file := WriteBmp(r, l);
    FlattenLength(StoredRows(r, l), Stride(r.width, l.pixelBytes));
    HeaderFields(r.width, r.height, l, file);
    var pixels := Stride(r.width, l.pixelBytes) * r.height;
    assert |file| == 34 + |l.rest| + pixels;
  }

  /** Octet `c` of pixel `x` of a stored row. */
  lemma StoredRowAt(row: seq<byte>, width: nat, l: Layout, x: nat, c: nat)
    requires |row| == width * 3 && (l.pixelBytes == 3 || l.pixelBytes == 4) && x < width && c < 3
    ensures Offset(x, l.pixelBytes, c) < Stride(width, l.pixelBytes)
    ensures StoredRow(row, width, l)[Offset(x, l.pixelBytes, c)] == Slices(row, 3, width)[x][2 - c]
  {
    hide Stride, Flatten, Slices, Offset;
    var pixels := StoredPixels(Slices(row, 3, width), l);
    FlattenLength(pixels, l.pixelBytes);
    FlattenAt(pixels, l.pixelBytes, x, c);
    StrideHoldsRow(width, l.pixelBytes);
  }

  lemma FileTail(r: Raster, l: Layout, k: nat)
    requires WellFormed(r) && HeaderFits(r.width, r.height, l) && k < |Flatten(StoredRows(r, l))|
    ensures 34 + |l.rest| + k < |WriteBmp(r, l)|
    ensures WriteBmp(r, l)[34 + |l.rest| + k] == Flatten(StoredRows(r, l))[k]
  {
    hide Flatten, StoredRows, WriteHeader, WellFormed;
  }

  /** What the written file holds where the decoder will look for a pixel. */
  lemma FileHoldsPixel(r: Raster, l: Layout, row: nat, x: nat, c: nat)
    requires WellFormed(r) && HeaderFits(r.width, r.height, l) && row < r.height && x < r.width && c < 3
    ensures var at := PixelAt(HeaderOf(r, l), row, x, c);
      at < |WriteBmp(r, l)| && WriteBmp(r, l)[at] == Slices(PictureRow(r, row), 3, r.width)[x][2 - c]
  {
    hide Stride, Flatten, Slices, WellFormed, WriteBmp, StoredRow, PictureRow, Offset;
    var stride, source := Stride(r.width, l.pixelBytes), if l.topDown then row else r.height - 1 - row;
    var inner := Offset(x, l.pixelBytes, c);
    StoredRowAt(PictureRow(r, row), r.width, l, x, c);
    FlattenAt(StoredRows(r, l), stride, source, inner);
    FileTail(r, l, Offset(source, stride, inner));
    assert StoredRows(r, l)[source] == StoredRow(PictureRow(r, row), r.width, l);
  }

  lemma PixelsReadBack(r: Raster, l: Layout, row: nat)
    requires WellFormed(r) && HeaderFits(r.width, r.height, l) && row < r.height
    requires Fits(WriteBmp(r, l), HeaderOf(r, l))
    ensures RowRgb(WriteBmp(r, l), HeaderOf(r, l), row) == PictureRow(r, row)
  {
    hide Stride, Flatten, Slices, WellFormed, WriteBmp, PixelAt, Fits, PictureRow;
    var file, h := WriteBmp(r, l), HeaderOf(r, l);
    var pixels, slices := RowPixels(file, h, row, h.width), Slices(PictureRow(r, row), 3, r.width);
    forall x | 0 <= x < r.width ensures pixels[x] == slices[x] {
      FileHoldsPixel(r, l, row, x, 0);
      FileHoldsPixel(r, l, row, x, 1);
      FileHoldsPixel(r, l, row, x, 2);
    }
    assert pixels == slices;
    FlattenSlices(PictureRow(r, row), 3, r.width);
    assert PictureRow(r, row)[..r.width * 3] == PictureRow(r, row);
  }

  /** Writing any picture, in either row order, at either depth, behind any
      header tail and with any padding, and decoding it gives the picture. */
  lemma BmpRoundTrip(r: Raster, l: Layout)
    requires WellFormed(r) && HeaderFits(r.width, r.height, l)
    ensures ReadHeader(WriteBmp(r, l)) == Some(HeaderOf(r, l))
    ensures Picture(WriteBmp(r, l), HeaderOf(r, l)) == r
  {
    hide Stride, Flatten, Slices, ReadHeader, WriteBmp, Fits, RowRgb;
    HeaderReadsBack(r, l);
    var file, h := WriteBmp(r, l), HeaderOf(r, l);
    var rows, slices := Rows(file, h, h.height), Slices(r.rgb, r.width * 3, r.height);
    forall row | 0 <= row < r.height ensures rows[row] == slices[row] {
      PixelsReadBack(r, l, row);
    }
    assert rows == slices;
    FlattenSlices(r.rgb, r.width * 3, r.height);
    assert r.rgb[..r.height * (r.width * 3)] == r.rgb;
  }
}
