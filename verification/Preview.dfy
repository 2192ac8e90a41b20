/**
 Image previews: decode what decodes without a codec, downscale by an integer
 factor with nearest sampling, print the result as a P6 map in hexadecimal.
 */
module Preview {
  import opened Bytes
  import opened Bitmap
  import opened Pixmap
  import opened Decimal
  import opened Numbers
  import opened Wrappers
  import Hex

  const MAX_EDGE: nat := 64

  // ------------------------------------------------------------------
  // Nearest sampling.
  // ------------------------------------------------------------------

  function Factor(width: nat, height: nat): (f: nat)
    ensures f >= 1
  {
    Max((Max(width, height) + MAX_EDGE - 1) / MAX_EDGE, 1)
  }

  function ThumbEdge(edge: nat, factor: nat): nat
    requires factor >= 1
  {
    Max(edge / factor, 1)
  }

  lemma QuotientIsSmall(n: nat, d: nat, q: nat)
    requires d >= 1 && n <= q * d
    ensures n / d <= q
  {
    assert (n / d) * d <= n;
    assert (n / d - q) * d <= 0;
  }

  lemma EdgeIsSmall(edge: nat, longest: nat, factor: nat)
    requires edge <= longest && factor == Max((longest + MAX_EDGE - 1) / MAX_EDGE, 1)
    ensures 1 <= ThumbEdge(edge, factor) <= MAX_EDGE
  {
    QuotientIsSmall(edge, factor, MAX_EDGE);
  }

  /** Every step of the sampling grid stays on the picture. */
  lemma StepStaysInside(edge: nat, factor: nat, i: nat)
    requires factor >= 1 && edge >= 1 && i < ThumbEdge(edge, factor)
    ensures i * factor < edge
  {
    if edge / factor >= 1 {
      assert i * factor <= (edge / factor - 1) * factor;
    }
  }

  /** The number of the pixel a factor as far out as (x, y). */
  function FarIndex(width: nat, factor: nat, x: nat, y: nat): nat {
    y * factor * width + x * factor
  }

  /** The pixel of the picture that thumbnail pixel (x, y) shows, by the source's
      32-bit arithmetic. */
  function SampleIndex(width: nat, factor: nat, x: nat, y: nat): nat {
    FarIndex(width, factor, x, y) % U32
  }

  /** The sampled pixel exists, and while the picture has at most 2^32 pixels it
      is the one meant. */
  lemma SampleInRange(width: nat, height: nat, x: nat, y: nat)
    requires width > 0 && height > 0
    requires var f := Factor(width, height); x < ThumbEdge(width, f) && y < ThumbEdge(height, f)
    ensures var f := Factor(width, height);
      && SampleIndex(width, f, x, y) <= FarIndex(width, f, x, y) < height * width
      && (height * width <= U32 ==> SampleIndex(width, f, x, y) == FarIndex(width, f, x, y))
  {
    var f := Factor(width, height);
    StepStaysInside(width, f, x);
    StepStaysInside(height, f, y);
    InGrid(y * f, height, width, x * f);
  }

  /** A picture that has edges, whether or not it has all its pixels. */
  predicate Sized(r: Raster) {
    0 < r.width && 0 < r.height
  }

  /** The sampled octets; of no account where the picture does not reach so far. */
  function SamplePixel(r: Raster, x: nat, y: nat): (p: seq<byte>)
    ensures |p| == 3
  {
    var i := SampleIndex(r.width, Factor(r.width, r.height), x, y);
    if 3 * i + 3 <= |r.rgb| then r.rgb[3 * i..3 * i + 3] else [0, 0, 0]
  }

  /** Sampling (x, y) neither overflows nor leaves the picture. */
  predicate SampleFits(build: Build, r: Raster, x: nat, y: nat) {
    var f := Factor(r.width, r.height);
    && 3 * SampleIndex(r.width, f, x, y) + 3 <= |r.rgb|
    && (build.Checked? ==> FarIndex(r.width, f, x, y) < U32)
  }

  lemma SampleIsTaken(build: Build, r: Raster, x: nat, y: nat)
    requires SampleFits(build, r, x, y)
    ensures var i := SampleIndex(r.width, Factor(r.width, r.height), x, y);
      3 * i + 3 <= |r.rgb| && SamplePixel(r, x, y) == r.rgb[3 * i..3 * i + 3]
  {
    hide SampleIndex, Factor;
  }

  lemma PixelCount(width: nat, height: nat)
    ensures height * (width * 3) == 3 * (height * width)
  {
  }

  ghost function SampleRow(r: Raster, y: nat, count: nat): (pixels: seq<seq<byte>>)
    requires Sized(r)
    requires var f := Factor(r.width, r.height); count <= ThumbEdge(r.width, f) && y < ThumbEdge(r.height, f)
    ensures |pixels| == count && EqualRows(pixels, 3)
    ensures forall x :: 0 <= x < count ==> pixels[x] == SamplePixel(r, x, y)
  {
    if count == 0 then [] else SampleRow(r, y, count - 1) + [SamplePixel(r, count - 1, y)]
  }

  ghost function SampleRows(r: Raster, count: nat): (rows: seq<seq<byte>>)
    requires Sized(r)
    requires count <= ThumbEdge(r.height, Factor(r.width, r.height))
    ensures |rows| == count && EqualRows(rows, ThumbEdge(r.width, Factor(r.width, r.height)) * 3)
    ensures forall y :: 0 <= y < count ==>
              rows[y] == Flatten(SampleRow(r, y, ThumbEdge(r.width, Factor(r.width, r.height))))
  {
    if count == 0 then []
    else
      var row := SampleRow(r, count - 1, ThumbEdge(r.width, Factor(r.width, r.height)));
      FlattenLength(row, 3);
      SampleRows(r, count - 1) + [Flatten(row)]
  }

  /** The thumbnail of a picture. */
  ghost function Thumbnail(r: Raster): (t: Raster)
    requires Sized(r)
    ensures WellFormed(t) && t.width <= MAX_EDGE && t.height <= MAX_EDGE
  {
    var f := Factor(r.width, r.height);
    var w, h := ThumbEdge(r.width, f), ThumbEdge(r.height, f);
    EdgeIsSmall(r.width, Max(r.width, r.height), f);
    EdgeIsSmall(r.height, Max(r.width, r.height), f);
    FlattenLength(SampleRows(r, h), w * 3);
    Raster(w, h, Flatten(SampleRows(r, h)))
  }

  /** The pixel in column x of row y of a picture. */
  ghost function Pixel(r: Raster, x: nat, y: nat): seq<byte>
    requires WellFormed(r) && x < r.width && y < r.height
  {
    Slices(Slices(r.rgb, r.width * 3, r.height)[y], 3, r.width)[x]
  }

  lemma PixelOffset(width: nat, x: nat, y: nat)
    ensures y * (width * 3) + x * 3 == 3 * (y * width + x)
  {
  }

  lemma SliceOfSlice(s: seq<byte>, at: nat, size: nat, k: nat, n: nat)
    requires at + size <= |s| && k + n <= size
    ensures s[at..at + size][k..k + n] == s[at + k..at + k + n]
  {
    var row, part := s[at..at + size], s[at + k..at + k + n];
    forall i | 0 <= i < n ensures row[k..k + n][i] == part[i] {
      assert row[k + i] == s[at + (k + i)] == s[(at + k) + i];
    }
  }

  lemma PixelFits(width: nat, height: nat, x: nat, y: nat)
    requires x < width && y < height
    ensures y * (width * 3) + width * 3 <= height * (width * 3) && x * 3 + 3 <= width * 3
  {
    assert (y + 1) * (width * 3) <= height * (width * 3);
  }

  lemma PixelAtIndex(r: Raster, x: nat, y: nat)
    requires WellFormed(r) && x < r.width && y < r.height
    ensures var i := y * r.width + x;
      0 <= 3 * i <= 3 * i + 3 <= |r.rgb| && Pixel(r, x, y) == r.rgb[3 * i..3 * i + 3]
  {
    hide Slices;
    var at := y * (r.width * 3);
    PixelFits(r.width, r.height, x, y);
    PixelOffset(r.width, x, y);
    SliceOfSlice(r.rgb, at, r.width * 3, x * 3, 3);
  }

  /** A sample is the picture's pixel a factor as far out, unless that pixel's
      number takes more than 32 bits. */
  lemma SampleIsPixel(r: Raster, x: nat, y: nat)
    requires WellFormed(r)
    requires var f := Factor(r.width, r.height); x < ThumbEdge(r.width, f) && y < ThumbEdge(r.height, f)
    ensures var f := Factor(r.width, r.height);
      && x * f < r.width && y * f < r.height
      && (FarIndex(r.width, f, x, y) < U32 ==> SamplePixel(r, x, y) == Pixel(r, x * f, y * f))
  {
    hide Factor, ThumbEdge, Slices, Pixel;
    var f := Factor(r.width, r.height);
    StepStaysInside(r.width, f, x);
    StepStaysInside(r.height, f, y);
    PixelAtIndex(r, x * f, y * f);
    if FarIndex(r.width, f, x, y) < U32 {
      assert SampleIndex(r.width, f, x, y) == FarIndex(r.width, f, x, y);
    }
  }

  /** Pixel (x, y) of the thumbnail is sample (x, y) of the picture. */
  lemma ThumbnailShows(r: Raster, x: nat, y: nat)
    requires Sized(r) && x < Thumbnail(r).width && y < Thumbnail(r).height
    ensures Pixel(Thumbnail(r), x, y) == SamplePixel(r, x, y)
  {
    hide Factor, ThumbEdge, Slices, Flatten, SamplePixel;
    var t := Thumbnail(r);
    SlicesOfFlatten(SampleRows(r, t.height), t.width * 3);
    SlicesOfFlatten(SampleRow(r, y, t.width), 3);
  }

  /** A picture no edge of which exceeds the limit is its own thumbnail. */
  lemma SmallPictureIsItsThumbnail(r: Raster)
    requires WellFormed(r) && r.width <= MAX_EDGE && r.height <= MAX_EDGE
    ensures Thumbnail(r) == r
  {
    hide Slices, SamplePixel, Flatten, WellFormed;
    Dimensions(r);
    assert Factor(r.width, r.height) == 1;
    var slices, rows := Slices(r.rgb, r.width * 3, r.height), SampleRows(r, r.height);
    forall y | 0 <= y < r.height ensures rows[y] == slices[y] {
      var pixels, parts := SampleRow(r, y, r.width), Slices(slices[y], 3, r.width);
      forall x | 0 <= x < r.width ensures pixels[x] == parts[x] {
        SampleIsPixel(r, x, y);
        SmallIndex(r, x, y);
      }
      assert pixels == parts;
      FlattenSlices(slices[y], 3, r.width);
      assert slices[y][..r.width * 3] == slices[y];
    }
    assert rows == slices;
    FlattenSlices(r.rgb, r.width * 3, r.height);
    assert r.rgb[..r.height * (r.width * 3)] == r.rgb;
  }

  lemma SmallIndex(r: Raster, x: nat, y: nat)
    requires r.width <= MAX_EDGE && x < r.width && y < MAX_EDGE
    ensures FarIndex(r.width, 1, x, y) < U32
  {
    assert y * r.width <= MAX_EDGE * MAX_EDGE;
  }

  lemma Dimensions(r: Raster)
    requires WellFormed(r)
    ensures r.width > 0 && r.height > 0 && |r.rgb| == r.height * (r.width * 3)
  {
  }

  // ------------------------------------------------------------------
  // The P6 printer.
  // ------------------------------------------------------------------

  function DigitBytes(n: nat): (s: seq<byte>)
    ensures Numeral(s)
  {
    var ds := Digits(n);
    seq(|ds|, i requires 0 <= i < |ds| => '0' as int + ds[i])
  }

  function P6Parts(width: nat, height: nat): Parts {
    Parts('6' as int, [NEWLINE], DigitBytes(width), [' ' as int], DigitBytes(height), [NEWLINE],
          ['2' as int, '5' as int, '5' as int], NEWLINE)
  }

  function PrintP6(t: Raster): seq<byte> {
    Text(P6Parts(t.width, t.height)) + t.rgb
  }

  lemma DigitBytesValue(n: nat)
    ensures NumeralValue(DigitBytes(n)) == n
  {
    assert DigitValues(DigitBytes(n)) == Digits(n);
    ValueOfDigits(n);
  }

  lemma P6HeaderIsGrammatical(width: nat, height: nat)
    requires 0 < width < U32 && 0 < height < U32
    ensures var p := P6Parts(width, height);
      && Grammatical(p) && Pixmap.HeaderOf(p) == PnmHeader(true, width, height, |Text(p)|)
  {
    DigitBytesValue(width);
    DigitBytesValue(height);
    var maxval: seq<byte> := ['2' as int, '5' as int, '5' as int];
    assert DigitValues(maxval) == [2, 5, 5];
    assert Value([2, 5, 5]) == 255 by {
      assert [2, 5, 5][..2] == [2, 5] && [2, 5][..1] == [2] && Value([2]) == 2;
    }
  }

  /** The parser undoes the printer, for every raster that memory can hold. */
  lemma P6RoundTrip(build: Build, t: Raster)
    requires WellFormed(t) && t.width < U32 && t.height < U32
    requires |t.rgb| < CAPACITY_LIMIT
    ensures ParsePnm(build, PrintP6(t)) == Answers(Some(t))
  {
    hide Text, Grammatical, ParseHeader, NumeralValue;
    P6HeaderIsGrammatical(t.width, t.height);
    PictureIsRead(build, PrintP6(t), P6Parts(t.width, t.height), t.rgb, t);
  }

  // ------------------------------------------------------------------
  // The preview.
  // ------------------------------------------------------------------

  lemma RowStep(r: Raster, y: nat)
    requires Sized(r) && y < ThumbEdge(r.height, Factor(r.width, r.height))
    ensures var row := SampleRow(r, y, ThumbEdge(r.width, Factor(r.width, r.height)));
      Flatten(SampleRows(r, y + 1)) == Flatten(SampleRows(r, y)) + Flatten(row)
    ensures Flatten(SampleRows(r, 0)) == []
  {
    hide SampleRow, WellFormed, Factor, ThumbEdge;
    FlattenPush(SampleRows(r, y), Flatten(SampleRow(r, y, ThumbEdge(r.width, Factor(r.width, r.height)))));
  }

  lemma PixelStep(r: Raster, x: nat, y: nat)
    requires Sized(r)
    requires var f := Factor(r.width, r.height); x < ThumbEdge(r.width, f) && y < ThumbEdge(r.height, f)
    ensures Flatten(SampleRow(r, y, x + 1)) == Flatten(SampleRow(r, y, x)) + SamplePixel(r, x, y)
    ensures Flatten(SampleRow(r, y, 0)) == []
  {
    hide SamplePixel, WellFormed, Factor, ThumbEdge;
    FlattenPush(SampleRow(r, y, x), SamplePixel(r, x, y));
  }

  /** Every sample of the thumbnail can be taken. */
  ghost predicate Shown(build: Build, r: Raster) {
    var f := Factor(r.width, r.height);
    forall x: nat, y: nat :: x < ThumbEdge(r.width, f) && y < ThumbEdge(r.height, f) ==> SampleFits(build, r, x, y)
  }

  /** The header, then the sampled pixels one by one, up to one that cannot be
      taken. */
  method PrintThumbnail(build: Build, r: Raster) returns (o: Outcome<(nat, nat, seq<byte>)>)
    requires Sized(r)
    ensures o.Panics? <==> !Shown(build, r)
    ensures o.Answers? ==>
              var (width, height, ppm) := o.value;
              && 1 <= width <= MAX_EDGE && 1 <= height <= MAX_EDGE
              && width == Thumbnail(r).width && height == Thumbnail(r).height && ppm == PrintP6(Thumbnail(r))
  {
    hide Factor, ThumbEdge, SampleRow, SampleRows, SamplePixel, SampleFits, SampleIndex, Flatten, WellFormed, Text;
    var factor := Factor(r.width, r.height);
    var width, height := ThumbEdge(r.width, factor), ThumbEdge(r.height, factor);
    assert Thumbnail(r).width >= 1 && Thumbnail(r).height >= 1 by { Dimensions(Thumbnail(r)); }
    ghost var header := Text(P6Parts(width, height));
    var ppm := Text(P6Parts(width, height));
    RowStep(r, 0);
    for y := 0 to height
      invariant ppm == header + Flatten(SampleRows(r, y))
      invariant forall v: nat, u: nat :: v < y && u < width ==> SampleFits(build, r, u, v)
    {
      ghost var above := ppm;
      PixelStep(r, 0, y);
      for x := 0 to width
        invariant ppm == above + Flatten(SampleRow(r, y, x))
        invariant forall u: nat :: u < x ==> SampleFits(build, r, u, y)
      {
        if !SampleFits(build, r, x, y) {
          return Panics;
        }
        PixelStep(r, x, y);
        SampleIsTaken(build, r, x, y);
        var i := SampleIndex(r.width, factor, x, y);
        ppm := ppm + r.rgb[3 * i..3 * i + 3];
      }
      RowStep(r, y);
    }
    return Answers((width, height, ppm));
  }

  datatype ImagePreview = ImagePreview(format: string, width: nat, height: nat, thumbWidth: nat, thumbHeight: nat,
                                       pixelsPpmHex: string)

  /** The picture in the octets, with the format that decoded it. */
  ghost function Decoded(build: Build, bytes: seq<byte>): Outcome<Option<(string, Raster)>> {
    var header := ReadHeader(bytes);
    if header.Some? then Answers(Some(("bmp", Picture(bytes, header.value))))
    else
      var pnm := ParsePnm(build, bytes);
      if pnm.Panics? then Panics
      else if pnm.value.None? then Answers(None)
      else Answers(Some(("pnm", pnm.value.value)))
  }

  lemma DecodedIsSized(build: Build, bytes: seq<byte>)
    ensures var d := Decoded(build, bytes);
      d.Answers? && d.value.Some? ==>
        Sized(d.value.value.1) && (build.Checked? || d.value.value.0 == "bmp" ==> WellFormed(d.value.value.1))
  {
    hide ReadHeader, Picture, ParseHeader, ReadPixels;
    var header := ReadHeader(bytes);
    if header.Some? {
      PictureIsWellFormed(bytes, header.value);
    } else if ParseHeader(bytes).Some? {
      var o := ReadPixels(build, bytes, ParseHeader(bytes).value);
      if o.Answers? && o.value.Some? {
        ParsedIsWellFormedExactly(build, bytes, ParseHeader(bytes).value);
      }
    }
  }

  /** What the preview of any octets is, or that there is none, or that taking it
      ends the program. */
  ghost function PreviewOf(build: Build, bytes: seq<byte>): Outcome<Option<ImagePreview>> {
    DecodedIsSized(build, bytes);
    var d := Decoded(build, bytes);
    if d.Panics? then Panics
    else if d.value.None? then Answers(None)
    else
      var (format, r) := d.value.value;
      if !Shown(build, r) then Panics
      else Answers(Some(ImagePreview(format, r.width, r.height, Thumbnail(r).width, Thumbnail(r).height,
                                     Hex.Encode(PrintP6(Thumbnail(r))))))
  }

  method DeriveImagePreview(build: Build, bytes: seq<byte>) returns (p: Outcome<Option<ImagePreview>>)
    ensures p == PreviewOf(build, bytes)
  {
    hide ReadHeader, Picture, ParsePnm, Thumbnail, PrintP6, WellFormed, Shown;
    var bmp := DecodeBmp(bytes);
    var format, r := "bmp", bmp;
    if bmp.None? {
      var pnm := DecodePnm(build, bytes);
      if pnm.Panics? {
        return Panics;
      }
      format, r := "pnm", pnm.value;
    }
    if r.None? {
      return Answers(None);
    }
    DecodedIsSized(build, bytes);
    var o := PrintThumbnail(build, r.value);
    if o.Panics? {
      return Panics;
    }
    var (width, height, ppm) := o.value;
    return Answers(Some(ImagePreview(format, r.value.width, r.value.height, width, height, Hex.Encode(ppm))));
  }

  // ------------------------------------------------------------------
  // When a preview can be taken, and when it shows the picture.
  // ------------------------------------------------------------------

  /** The number of the last pixel that is sampled. */
  function LastIndex(width: nat, height: nat): nat {
    var f := Factor(width, height);
    FarIndex(width, f, ThumbEdge(width, f) - 1, ThumbEdge(height, f) - 1)
  }

  lemma LastIsFarthest(width: nat, height: nat, x: nat, y: nat)
    requires var f := Factor(width, height); x < ThumbEdge(width, f) && y < ThumbEdge(height, f)
    ensures FarIndex(width, Factor(width, height), x, y) <= LastIndex(width, height)
  {
    hide Factor, ThumbEdge;
    var f := Factor(width, height);
    var x', y' := ThumbEdge(width, f) - 1, ThumbEdge(height, f) - 1;
    assert x * f <= x' * f && y * f <= y' * f;
    assert (y * f) * width <= (y' * f) * width;
  }

  /** A whole picture can be sampled, with overflow checks exactly when its last
      sample's number takes 32 bits. */
  lemma WholePictureIsShownExactly(build: Build, r: Raster)
    requires WellFormed(r)
    ensures Shown(build, r) <==> build.Wrapping? || LastIndex(r.width, r.height) < U32
  {
    hide Factor, ThumbEdge, SampleIndex, FarIndex;
    var f := Factor(r.width, r.height);
    var w, h := ThumbEdge(r.width, f), ThumbEdge(r.height, f);
    forall x: nat, y: nat | x < w && y < h
      ensures SampleFits(build, r, x, y) <==> build.Wrapping? || FarIndex(r.width, f, x, y) < U32
    {
      SampleInRange(r.width, r.height, x, y);
      PixelCount(r.width, r.height);
    }
    if build.Wrapping? || LastIndex(r.width, r.height) < U32 {
      forall x: nat, y: nat | x < w && y < h ensures SampleFits(build, r, x, y) {
        LastIsFarthest(r.width, r.height, x, y);
      }
    } else {
      EdgesArePositive(r.width, r.height);
      assert !SampleFits(build, r, w - 1, h - 1);
    }
  }

  lemma EdgesArePositive(width: nat, height: nat)
    ensures var f := Factor(width, height); ThumbEdge(width, f) >= 1 && ThumbEdge(height, f) >= 1
  {
  }

  /** With overflow checks, taking a preview ends the program exactly when the file
      is a map whose header asks for too much, or a picture whose last sample is too
      far out. */
  lemma PreviewPanicsExactly(bytes: seq<byte>)
    ensures PreviewOf(Checked, bytes).Panics? <==>
            || (ReadHeader(bytes).None? && exists p :: AsksForMore(bytes, p))
            || var d := Decoded(Checked, bytes);
              d.Answers? && d.value.Some? && LastIndex(d.value.value.1.width, d.value.value.1.height) >= U32
  {
    hide ReadHeader, Picture, ParsePnm, Thumbnail, PrintP6, WellFormed, Shown, LastIndex, AsksForMore;
    PanicsExactly(bytes);
    DecodedIsSized(Checked, bytes);
    var d := Decoded(Checked, bytes);
    if d.Answers? && d.value.Some? {
      WholePictureIsShownExactly(Checked, d.value.value.1);
    }
  }

  /** Pixel (x, y) of the thumbnail is the picture's, a factor as far out. */
  ghost predicate ShowsPixel(r: Raster, t: Raster, f: nat, x: nat, y: nat)
    requires WellFormed(r) && WellFormed(t)
  {
    x < t.width && y < t.height ==>
      x * f < r.width && y * f < r.height && Pixel(t, x, y) == Pixel(r, x * f, y * f)
  }

  /** The thumbnail shows the picture. */
  ghost predicate ShowsThePicture(r: Raster)
    requires WellFormed(r)
  {
    forall x: nat, y: nat :: ShowsPixel(r, Thumbnail(r), Factor(r.width, r.height), x, y)
  }

  ghost predicate AlwaysShown(width: nat, height: nat) {
    forall r: Raster :: WellFormed(r) && r.width == width && r.height == height ==> ShowsThePicture(r)
  }

  /** A picture of one bright pixel. */
  function OneBright(width: nat, height: nat, i: nat): Raster {
    Raster(width, height, seq(height * (width * 3), k requires 0 <= k => if k / 3 == i then 255 else 0))
  }

  lemma BrightPixel(width: nat, height: nat, i: nat, j: nat)
    requires 3 * j + 3 <= height * (width * 3)
    ensures OneBright(width, height, i).rgb[3 * j] == if j == i then 255 else 0
  {
  }

  /** Past 32 bits the sample is another pixel, so one bright pixel there is lost. */
  lemma BrightPixelIsLost(width: nat, height: nat)
    requires 0 < width && 0 < height && LastIndex(width, height) >= U32
    ensures var r := OneBright(width, height, LastIndex(width, height)); WellFormed(r) && !ShowsThePicture(r)
  {
    hide Factor, ThumbEdge, Slices, Flatten, Pixel, SampleRow, SampleRows;
    var last := LastIndex(width, height);
    var r := OneBright(width, height, last);
    var f := Factor(width, height);
    var x, y := ThumbEdge(width, f) - 1, ThumbEdge(height, f) - 1;
    EdgesArePositive(width, height);
    SampleInRange(width, height, x, y);
    PixelCount(width, height);
    SampleIsPixel(r, x, y);
    PixelAtIndex(r, x * f, y * f);
    var i := SampleIndex(width, f, x, y);
    BrightPixel(width, height, last, last);
    BrightPixel(width, height, last, i);
    assert Pixel(r, x * f, y * f)[0] == 255 && SamplePixel(r, x, y)[0] == 0;
    ThumbnailShows(r, x, y);
    assert !ShowsPixel(r, Thumbnail(r), f, x, y);
  }

  lemma ShownInReach(r: Raster)
    requires WellFormed(r) && LastIndex(r.width, r.height) < U32
    ensures ShowsThePicture(r)
  {
    hide Factor, ThumbEdge, LastIndex, Pixel, SampleRow, SampleRows, SamplePixel, FarIndex, Flatten;
    var f := Factor(r.width, r.height);
    forall x: nat, y: nat ensures ShowsPixel(r, Thumbnail(r), f, x, y) {
      if x < Thumbnail(r).width && y < Thumbnail(r).height {
        LastIsFarthest(r.width, r.height, x, y);
        SampleIsPixel(r, x, y);
        ThumbnailShows(r, x, y);
      }
    }
  }

  /** Every picture of a size is shown exactly when the last sample's number takes 32
      bits. */
  lemma AlwaysShownExactly(width: nat, height: nat)
    requires 0 < width && 0 < height
    ensures AlwaysShown(width, height) <==> LastIndex(width, height) < U32
  {
    hide LastIndex, ShowsThePicture;
    if LastIndex(width, height) < U32 {
      forall r: Raster | WellFormed(r) && r.width == width && r.height == height ensures ShowsThePicture(r) {
        ShownInReach(r);
      }
    } else {
      BrightPixelIsLost(width, height);
    }
  }

  /** A picture 70000 pixels square is too large. */
  lemma LargeSquareIsNotShown()
    ensures LastIndex(70_000, 70_000) == 4_748_027_828 && !AlwaysShown(70_000, 70_000)
  {
    hide AlwaysShown, LastIndex;
    LastOfLargeSquare();
    AlwaysShownExactly(70_000, 70_000);
  }

  lemma LastOfLargeSquare()
    ensures LastIndex(70_000, 70_000) == 4_748_027_828
  {
    assert Factor(70_000, 70_000) == 1_094;
    assert ThumbEdge(70_000, 1_094) == 63;
    assert FarIndex(70_000, 1_094, 62, 62) == 4_748_027_828;
  }

  // ------------------------------------------------------------------
  // Short files that cannot be previewed.
  // ------------------------------------------------------------------

  /** The printed header, of a colour or a gray map. */
  function PrintedParts(width: nat, height: nat, gray: bool): Parts {
    P6Parts(width, height).(magic := if gray then '5' as int else '6' as int)
  }

  lemma PrintedIsGrammatical(width: nat, height: nat, gray: bool)
    requires 0 < width < U32 && 0 < height < U32
    ensures var p := PrintedParts(width, height, gray);
      Grammatical(p) && Pixmap.HeaderOf(p) == PnmHeader(!gray, width, height, |Text(p)|)
  {
    hide NumeralValue, Blank, Numeral;
    P6HeaderIsGrammatical(width, height);
  }

  /** A printed header alone is enough for the decoder to stop, in both builds and
      for colour and gray alike: it asks for twelve quintillion octets. */
  lemma HugeHeaderPanics(build: Build, gray: bool, rest: seq<byte>)
    ensures var bytes := Text(PrintedParts(4_000_000_000, 1_000_000_000, gray)) + rest;
      ParsePnm(build, bytes).Panics? && PreviewOf(build, bytes).Panics?
  {
    hide Text, ParseHeader, NumeralValue, Grammatical;
    var p := PrintedParts(4_000_000_000, 1_000_000_000, gray);
    var bytes := Text(p) + rest;
    PrintedIsGrammatical(4_000_000_000, 1_000_000_000, gray);
    ReadsByGrammar(build, bytes);
    StartsWithP(p, rest);
    NotABitmap(bytes);
  }

  lemma StartsWithP(p: Parts, rest: seq<byte>)
    ensures Text(p) <= Text(p) + rest && |Text(p) + rest| > 0 && (Text(p) + rest)[0] == 'P' as int
  {
  }

  /** A header whose size wraps around to what follows is answered, by a build
      without overflow checks, as a picture that lacks nearly all its pixels. Sampling
      it ends the program. */
  lemma WrappedHeaderPanics(data: seq<byte>)
    requires |data| == 130_772
    ensures var bytes := Text(P6Parts(2_479_601_089, 2_479_799_964)) + data;
      var r := Raster(2_479_601_089, 2_479_799_964, data);
      ParsePnm(Wrapping, bytes) == Answers(Some(r)) && !WellFormed(r) && PreviewOf(Wrapping, bytes).Panics?
  {
    hide Text, ParseHeader, NumeralValue, Grammatical, Thumbnail, Area, Shown, P6Parts, ParsePnm, ReadHeader, PrintP6;
    var p := P6Parts(2_479_601_089, 2_479_799_964);
    var bytes := Text(p) + data;
    var r := Raster(2_479_601_089, 2_479_799_964, data);
    WrappedSize();
    P6HeaderIsGrammatical(2_479_601_089, 2_479_799_964);
    StartsWithP(p, data);
    assert Wraps(bytes, p, data);
    WrappingAnswersExactly(bytes, r);
    NotABitmap(bytes);
    WrappedSampleIsOut(r);
  }

  lemma WrappedSize()
    ensures Area(2_479_601_089, 2_479_799_964, 3) == U64 + 130_772
  {
  }

  lemma WrappedSampleIsOut(r: Raster)
    requires r.width == 2_479_601_089 && r.height == 2_479_799_964 && |r.rgb| == 130_772
    ensures !Shown(Wrapping, r) && !WellFormed(r)
  {
    WrappedSize();
    assert Factor(r.width, r.height) == 38_746_875;
    assert FarIndex(r.width, 38_746_875, 1, 0) == 38_746_875;
    assert ThumbEdge(r.width, 38_746_875) == 63 && ThumbEdge(r.height, 38_746_875) == 63;
    assert !SampleFits(Wrapping, r, 1, 0);
  }

  /** The hexadecimal text of a preview decodes to a P6 file whose picture is
      the thumbnail, and previewing that file gives the same thumbnail again. */
  lemma PreviewIsStable(build: Build, r: Raster)
    requires Sized(r)
    ensures var ppm := PrintP6(Thumbnail(r));
      && Hex.Decode(Hex.Encode(ppm)) == Some(ppm)
      && Decoded(build, ppm) == Answers(Some(("pnm", Thumbnail(r))))
      && Thumbnail(Thumbnail(r)) == Thumbnail(r)
  {
    hide Thumbnail, ParsePnm, WellFormed;
    var t := Thumbnail(r);
    Hex.DecodeUndoesEncode(PrintP6(t));
    SmallEnough(t);
    P6RoundTrip(build, t);
    SmallPictureIsItsThumbnail(t);
    assert PrintP6(t)[0] == 'P' as int;
    NotABitmap(PrintP6(t));
  }

  lemma SmallEnough(t: Raster)
    requires WellFormed(t) && t.width <= MAX_EDGE && t.height <= MAX_EDGE
    ensures |t.rgb| < CAPACITY_LIMIT
  {
    ProductAtMost(t.height, t.width * 3, MAX_EDGE, MAX_EDGE * 3);
  }

  lemma ProductAtMost(a: nat, b: nat, most: nat, more: nat)
    requires a <= most && b <= more
    ensures a * b <= most * more
  {
  }

  lemma NotABitmap(bytes: seq<byte>)
    requires |bytes| > 0 && bytes[0] == 'P' as int
    ensures ReadHeader(bytes) == None
  {
  }
}
