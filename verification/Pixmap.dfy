/**
 Binary portable maps: the decoder of colour (P6) and gray (P5) files, the
 grammar it accepts, and the P6 printer it must undo.
 */
module Pixmap {
  import opened Bytes
  import opened Bitmap
  import opened Decimal
  import opened Wrappers

  predicate IsSpace(b: byte) {
    b == ' ' as int || b == '\t' as int || b == '\n' as int || b == 12 || b == '\r' as int
  }

  predicate IsDigit(b: byte) {
    '0' as int <= b <= '9' as int
  }

  const HASH: byte := '#' as int
  const NEWLINE: byte := '\n' as int

  // ------------------------------------------------------------------
  // The decoder's three scans.
  // ------------------------------------------------------------------

  function LineEnd(bytes: seq<byte>, at: nat): (end: nat)
    requires at <= |bytes|
    ensures at <= end <= |bytes|
    ensures forall i :: at <= i < end ==> bytes[i] != NEWLINE
    ensures end < |bytes| ==> bytes[end] == NEWLINE
    decreases |bytes| - at
  {
    if at < |bytes| && bytes[at] != NEWLINE then LineEnd(bytes, at + 1) else at
  }

  /** Past white space and comments; the end of input when they never stop. */
  function SkipBlank(bytes: seq<byte>, at: nat): (end: nat)
    requires at <= |bytes|
    ensures at <= end <= |bytes|
    decreases |bytes| - at
  {
    if at == |bytes| then at
    else if bytes[at] == HASH then SkipBlank(bytes, LineEnd(bytes, at))
    else if IsSpace(bytes[at]) then SkipBlank(bytes, at + 1)
    else at
  }

  function DigitsEnd(bytes: seq<byte>, at: nat): (end: nat)
    requires at <= |bytes|
    ensures at <= end <= |bytes|
    ensures forall i :: at <= i < end ==> IsDigit(bytes[i])
    ensures end < |bytes| ==> !IsDigit(bytes[end])
    decreases |bytes| - at
  {
    if at < |bytes| && IsDigit(bytes[at]) then DigitsEnd(bytes, at + 1) else at
  }

  function DigitOf(b: byte): Digit
    requires IsDigit(b)
  {
    b - '0' as int
  }

  function DigitValues(s: seq<byte>): (ds: seq<Digit>)
    requires forall i :: 0 <= i < |s| ==> IsDigit(s[i])
    ensures |ds| == |s|
  {
    seq(|s|, i requires 0 <= i < |s| => DigitOf(s[i]))
  }

  /** A header number and where it ends; it must fit 32 bits. */
  function Token(bytes: seq<byte>, at: nat): (r: Option<(nat, nat)>)
    requires at <= |bytes|
    ensures r.Some? ==> at < r.value.1 <= |bytes| && r.value.0 < U32
  {
    var start := SkipBlank(bytes, at);
    var end := DigitsEnd(bytes, start);
    if start == end then None
    else
      var n := Value(DigitValues(bytes[start..end]));
      if n < U32 then Some((n, end)) else None
  }

  function Tripled(data: seq<byte>): (rgb: seq<byte>)
    ensures |rgb| == |data| * 3
  {
    if data == [] then [] else
      var n := |data| - 1;
      Tripled(data[..n]) + [data[n], data[n], data[n]]
  }

  datatype PnmHeader = PnmHeader(color: bool, width: nat, height: nat, dataAt: nat)

  /** Magic, width, height, maximum value 255 and one white-space octet. */
  function ParseHeader(bytes: seq<byte>): (r: Option<PnmHeader>)
    ensures r.Some? ==> 0 < r.value.width && 0 < r.value.height && r.value.dataAt <= |bytes|
  {
    if |bytes| < 2 || bytes[0] != 'P' as int || (bytes[1] != '6' as int && bytes[1] != '5' as int) then None
    else
      var width := Token(bytes, 2);
      if width.None? then None else
      var height := Token(bytes, width.value.1);
      if height.None? then None else
      var maxval := Token(bytes, height.value.1);
      if maxval.None? then None else
      var at := maxval.value.1;
      if width.value.0 == 0 || height.value.0 == 0 || maxval.value.0 != 255 || at == |bytes| || !IsSpace(bytes[at])
      then None
      else Some(PnmHeader(bytes[1] == '6' as int, width.value.0, height.value.0, at + 1))
  }

  /** Octets in a raster of this size. */
  function Area(width: nat, height: nat, perPixel: nat): nat {
    height * (width * perPixel)
  }

  /** No allocation is larger than the signed address range. */
  const CAPACITY_LIMIT: nat := 0x8000_0000_0000_0000

  /** Three octets a pixel, counted in 64 bits. */
  function Capacity(build: Build, width: nat, height: nat): Outcome<nat> {
    var size := Area(width, height, 3);
    if size < U64 then Answers(size)
    else if build.Checked? then Panics
    else Answers(size % U64)
  }

  /** The buffer is reserved before the octets are looked for. */
  function ReadPixels(build: Build, bytes: seq<byte>, h: PnmHeader): Outcome<Option<Raster>>
    requires h.dataAt <= |bytes|
  {
    var capacity := Capacity(build, h.width, h.height);
    if capacity.Panics? || capacity.value >= CAPACITY_LIMIT then Panics
    else if h.color then
      if |bytes| < h.dataAt + capacity.value then Answers(None)
      else Answers(Some(Raster(h.width, h.height, bytes[h.dataAt..h.dataAt + capacity.value])))
    else
      var pixels := Area(h.width, h.height, 1);
      if |bytes| < h.dataAt + pixels then Answers(None)
      else if Area(h.width, h.height, 3) >= CAPACITY_LIMIT then Panics
      else Answers(Some(Raster(h.width, h.height, Tripled(bytes[h.dataAt..h.dataAt + pixels]))))
  }

  /** What the decoder answers. */
  function ParsePnm(build: Build, bytes: seq<byte>): Outcome<Option<Raster>> {
    var h := ParseHeader(bytes);
    if h.None? then Answers(None) else ReadPixels(build, bytes, h.value)
  }

  lemma ThreeOctetsAPixel(width: nat, height: nat)
    ensures Area(width, height, 3) == Area(width, height, 1) * 3
  {
  }

  /** A raster that is answered is whole, unless its size was counted around 2^64. */
  lemma ParsedIsWellFormedExactly(build: Build, bytes: seq<byte>, h: PnmHeader)
    requires h.dataAt <= |bytes| && 0 < h.width && 0 < h.height
    requires var o := ReadPixels(build, bytes, h); o.Answers? && o.value.Some?
    ensures var r := ReadPixels(build, bytes, h).value.value;
      && r.width == h.width && r.height == h.height
      && (WellFormed(r) <==> Area(h.width, h.height, 3) < U64)
      && (build.Checked? ==> WellFormed(r))
  {
    ThreeOctetsAPixel(h.width, h.height);
    var size := Area(h.width, h.height, 3);
    assert size >= U64 ==> size % U64 < size;
  }

  method ReadToken(bytes: seq<byte>, at: nat) returns (r: Option<(nat, nat)>)
    requires at <= |bytes|
    ensures r == Token(bytes, at)
  {
    var cursor := at;
    while cursor < |bytes| && (bytes[cursor] == HASH || IsSpace(bytes[cursor]))
      invariant at <= cursor <= |bytes|
      invariant SkipBlank(bytes, at) == SkipBlank(bytes, cursor)
    {
      if bytes[cursor] == HASH {
        ghost var hash := cursor;
        while cursor < |bytes| && bytes[cursor] != NEWLINE
          invariant hash <= cursor <= |bytes|
          invariant LineEnd(bytes, hash) == LineEnd(bytes, cursor)
        {
          cursor := cursor + 1;
        }
      } else {
        cursor := cursor + 1;
      }
    }
    var start := cursor;
    while cursor < |bytes| && IsDigit(bytes[cursor])
      invariant start <= cursor <= |bytes|
      invariant DigitsEnd(bytes, start) == DigitsEnd(bytes, cursor)
    {
      cursor := cursor + 1;
    }
    if start == cursor {
      return None;
    }
    var n := Value(DigitValues(bytes[start..cursor]));
    return if n < U32 then Some((n, cursor)) else None;
  }

  method ReadPnmHeader(bytes: seq<byte>) returns (r: Option<PnmHeader>)
    ensures r == ParseHeader(bytes)
  {
    hide Token;
    if |bytes| < 2 || bytes[0] != 'P' as int || (bytes[1] != '6' as int && bytes[1] != '5' as int) {
      return None;
    }
    var width := ReadToken(bytes, 2);
    if width.None? {
      return None;
    }
    var height := ReadToken(bytes, width.value.1);
    if height.None? {
      return None;
    }
    var maxval := ReadToken(bytes, height.value.1);
    if maxval.None? {
      return None;
    }
    var at := maxval.value.1;
    if width.value.0 == 0 || height.value.0 == 0 || maxval.value.0 != 255 || at == |bytes| || !IsSpace(bytes[at]) {
      return None;
    }
    return Some(PnmHeader(bytes[1] == '6' as int, width.value.0, height.value.0, at + 1));
  }

  method DecodePnm(build: Build, bytes: seq<byte>) returns (r: Outcome<Option<Raster>>)
    ensures r == ParsePnm(build, bytes)
    ensures r.Answers? && r.value.Some? ==> 0 < r.value.value.width && 0 < r.value.value.height
    ensures r.Answers? && r.value.Some? && build.Checked? ==> WellFormed(r.value.value)
  {
    hide ParseHeader, Area, WellFormed, Capacity;
    var header := ReadPnmHeader(bytes);
    if header.None? {
      return Answers(None);
    }
    var h := header.value;
    var o := ReadPixels(build, bytes, h);
    if o.Answers? && o.value.Some? {
      ParsedIsWellFormedExactly(build, bytes, h);
    }
    var capacity := Capacity(build, h.width, h.height);
    if capacity.Panics? || capacity.value >= CAPACITY_LIMIT {
      return Panics;
    }
    var size := if h.color then capacity.value else Area(h.width, h.height, 1);
    if |bytes| < h.dataAt + size {
      return Answers(None);
    }
    var data := bytes[h.dataAt..h.dataAt + size];
    if h.color {
      return Answers(Some(Raster(h.width, h.height, data)));
    }
    ThreeOctetsAPixel(h.width, h.height);
    var rgb: seq<byte> := [];
    for i := 0 to |data|
      invariant rgb == Tripled(data[..i]) && |rgb| < CAPACITY_LIMIT
    {
      if |rgb| + 3 >= CAPACITY_LIMIT {
        return Panics;
      }
      assert data[..i + 1][..i] == data[..i];
      rgb := rgb + [data[i], data[i], data[i]];
    }
    assert data[..|data|] == data;
    return Answers(Some(Raster(h.width, h.height, rgb)));
  }

  // ------------------------------------------------------------------
  // The grammar: exactly what the decoder accepts.
  // ------------------------------------------------------------------

  /** White space and comments, each comment closed by its newline. */
  predicate Blank(s: seq<byte>)
    decreases |s|
  {
    s == []
    || (IsSpace(s[0]) && Blank(s[1..]))
    || (s[0] == HASH && LineEnd(s, 0) < |s| && LineEnd(s, 0) > 0 && Blank(s[LineEnd(s, 0)..]))
  }

  predicate Numeral(s: seq<byte>) {
    s != [] && forall i :: 0 <= i < |s| ==> IsDigit(s[i])
  }

  function NumeralValue(s: seq<byte>): nat
    requires Numeral(s)
  {
    Value(DigitValues(s))
  }

  ghost predicate SitsAt(bytes: seq<byte>, at: nat, part: seq<byte>) {
    at + |part| <= |bytes| && bytes[at..at + |part|] == part
  }

  lemma {:induction false} LineEndWithin(bytes: seq<byte>, at: nat, part: seq<byte>, k: nat)
    requires SitsAt(bytes, at, part) && k <= |part| && LineEnd(part, k) < |part|
    ensures LineEnd(bytes, at + k) == at + LineEnd(part, k)
    decreases |part| - k
  {
    assert k < |part| ==> bytes[at + k] == bytes[at..at + |part|][k];
    if k < |part| && part[k] != NEWLINE {
      LineEndWithin(bytes, at, part, k + 1);
    }
  }

  lemma {:induction false} SkipBlankOver(bytes: seq<byte>, at: nat, blank: seq<byte>)
    requires Blank(blank) && SitsAt(bytes, at, blank) && at + |blank| < |bytes|
    requires !IsSpace(bytes[at + |blank|]) && bytes[at + |blank|] != HASH
    ensures SkipBlank(bytes, at) == at + |blank|
    decreases |blank|
  {
    if blank != [] {
      assert bytes[at] == bytes[at..at + |blank|][0];
      var k := if IsSpace(blank[0]) then 1 else LineEnd(blank, 0);
      if !IsSpace(blank[0]) {
        LineEndWithin(bytes, at, blank, 0);
      }
      assert bytes[at + k..at + |blank|] == blank[k..];
      SkipBlankOver(bytes, at + k, blank[k..]);
    }
  }

  lemma {:induction false} DigitsEndOver(bytes: seq<byte>, at: nat, end: nat)
    requires at <= end <= |bytes| && (forall i :: at <= i < end ==> IsDigit(bytes[i]))
    requires end < |bytes| ==> !IsDigit(bytes[end])
    ensures DigitsEnd(bytes, at) == end
    decreases end - at
  {
    if at < end {
      DigitsEndOver(bytes, at + 1, end);
    }
  }

  lemma TokenReads(bytes: seq<byte>, at: nat, blank: seq<byte>, num: seq<byte>)
    requires Blank(blank) && Numeral(num) && SitsAt(bytes, at, blank) && SitsAt(bytes, at + |blank|, num)
    requires at + |blank| + |num| < |bytes| ==> !IsDigit(bytes[at + |blank| + |num|])
    ensures Token(bytes, at) ==
            if NumeralValue(num) < U32 then Some((NumeralValue(num), at + |blank| + |num|)) else None
  {
    hide Blank, SkipBlank, DigitsEnd, Value;
    var start, end := at + |blank|, at + |blank| + |num|;
    assert bytes[start] == bytes[start..end][0];
    forall i | start <= i < end ensures IsDigit(bytes[i]) {
      assert bytes[i] == bytes[start..end][i - start];
    }
    SkipBlankOver(bytes, at, blank);
    DigitsEndOver(bytes, start, end);
  }

  lemma {:induction false} SkippedIsBlank(bytes: seq<byte>, at: nat)
    requires at <= |bytes| && SkipBlank(bytes, at) < |bytes|
    ensures Blank(bytes[at..SkipBlank(bytes, at)])
    decreases |bytes| - at
  {
    var end := SkipBlank(bytes, at);
    if at < end {
      var blank := bytes[at..end];
      if bytes[at] == HASH {
        var line := LineEnd(bytes, at);
        SkippedIsBlank(bytes, line);
        assert line < end && bytes[line] == NEWLINE;
        LineEndIs(blank, line - at);
        assert blank[line - at..] == bytes[line..end];
      } else {
        SkippedIsBlank(bytes, at + 1);
        assert blank[1..] == bytes[at + 1..end];
      }
    }
  }

  lemma LineEndIs(s: seq<byte>, k: nat)
    requires k < |s| && s[k] == NEWLINE && forall i :: 0 <= i < k ==> s[i] != NEWLINE
    ensures LineEnd(s, 0) == k
  {
  }

  lemma TokenSplits(bytes: seq<byte>, at: nat) returns (blank: seq<byte>, num: seq<byte>)
    requires at <= |bytes| && Token(bytes, at).Some?
    ensures Blank(blank) && Numeral(num) && SitsAt(bytes, at, blank) && SitsAt(bytes, at + |blank|, num)
    ensures Token(bytes, at) == Some((NumeralValue(num), at + |blank| + |num|))
    ensures at + |blank| + |num| < |bytes| ==> !IsDigit(bytes[at + |blank| + |num|])
  {
    var start := SkipBlank(bytes, at);
    var end := DigitsEnd(bytes, start);
    SkippedIsBlank(bytes, at);
    blank, num := bytes[at..start], bytes[start..end];
  }

  /** The parts of a header, in file order. */
  datatype Parts = Parts(magic: byte, blank1: seq<byte>, width: seq<byte>, blank2: seq<byte>, height: seq<byte>,
                         blank3: seq<byte>, maxval: seq<byte>, space: byte)

  function Text(p: Parts): seq<byte> {
    ['P' as int, p.magic] + p.blank1 + p.width + p.blank2 + p.height + p.blank3 + p.maxval + [p.space]
  }

  ghost predicate Grammatical(p: Parts) {
    && (p.magic == '6' as int || p.magic == '5' as int)
    && Blank(p.blank1) && Blank(p.blank2) && Blank(p.blank3) && p.blank2 != [] && p.blank3 != []
    && Numeral(p.width) && Numeral(p.height) && Numeral(p.maxval)
    && 0 < NumeralValue(p.width) < U32 && 0 < NumeralValue(p.height) < U32 && NumeralValue(p.maxval) == 255
    && IsSpace(p.space)
  }

  function HeaderOf(p: Parts): PnmHeader
    requires Numeral(p.width) && Numeral(p.height)
  {
    PnmHeader(p.magic == '6' as int, NumeralValue(p.width), NumeralValue(p.height), |Text(p)|)
  }

  lemma BlankIsNoDigit(s: seq<byte>)
    requires Blank(s) && s != []
    ensures !IsDigit(s[0])
  {
  }

  lemma PartSits(prefix: seq<byte>, part: seq<byte>, bytes: seq<byte>)
    ensures prefix + part <= bytes <==> prefix <= bytes && SitsAt(bytes, |prefix|, part)
  {
    if prefix + part <= bytes {
      assert bytes[..|prefix|] == (prefix + part)[..|prefix|] == prefix;
      assert bytes[|prefix|..|prefix| + |part|] == (prefix + part)[|prefix|..] == part;
    }
    if prefix <= bytes && SitsAt(bytes, |prefix|, part) {
      assert bytes[..|prefix| + |part|] == bytes[..|prefix|] + bytes[|prefix|..|prefix| + |part|] == prefix + part;
    }
  }

  /** The text of a header is there exactly when each part sits in its place. */
  lemma TextSits(p: Parts, bytes: seq<byte>)
    ensures var at1 := 2 + |p.blank1| + |p.width|;
      var at2 := at1 + |p.blank2| + |p.height|;
      var at3 := at2 + |p.blank3| + |p.maxval|;
      && |Text(p)| == at3 + 1
      && (Text(p) <= bytes <==>
            && ['P' as int, p.magic] <= bytes
            && SitsAt(bytes, 2, p.blank1) && SitsAt(bytes, 2 + |p.blank1|, p.width)
            && SitsAt(bytes, at1, p.blank2) && SitsAt(bytes, at1 + |p.blank2|, p.height)
            && SitsAt(bytes, at2, p.blank3) && SitsAt(bytes, at2 + |p.blank3|, p.maxval)
            && SitsAt(bytes, at3, [p.space]))
  {
    hide SitsAt;
    var p0 := ['P' as int, p.magic];
    var p1 := p0 + p.blank1;
    var p2 := p1 + p.width;
    var p3 := p2 + p.blank2;
    var p4 := p3 + p.height;
    var p5 := p4 + p.blank3;
    var p6 := p5 + p.maxval;
    PartSits(p0, p.blank1, bytes);
    PartSits(p1, p.width, bytes);
    PartSits(p2, p.blank2, bytes);
    PartSits(p3, p.height, bytes);
    PartSits(p4, p.blank3, bytes);
    PartSits(p5, p.maxval, bytes);
    PartSits(p6, [p.space], bytes);
    assert Text(p) == p6 + [p.space];
  }

  lemma FirstOfPart(bytes: seq<byte>, at: nat, part: seq<byte>)
    requires SitsAt(bytes, at, part) && part != []
    ensures at < |bytes| && bytes[at] == part[0]
  {
    assert bytes[at] == bytes[at..at + |part|][0];
  }

  /** Every grammatical header is read, with the numbers it spells. */
  lemma HeaderIsRead(p: Parts, bytes: seq<byte>)
    requires Grammatical(p) && Text(p) <= bytes
    ensures ParseHeader(bytes) == Some(HeaderOf(p))
  {
    hide Blank, NumeralValue, Token, Text, SitsAt;
    TextSits(p, bytes);
    var at1 := 2 + |p.blank1| + |p.width|;
    var at2 := at1 + |p.blank2| + |p.height|;
    FirstOfPart(bytes, at1, p.blank2);
    FirstOfPart(bytes, at2, p.blank3);
    FirstOfPart(bytes, at2 + |p.blank3| + |p.maxval|, [p.space]);
    BlankIsNoDigit(p.blank2);
    BlankIsNoDigit(p.blank3);
    TokenReads(bytes, 2, p.blank1, p.width);
    TokenReads(bytes, at1, p.blank2, p.height);
    TokenReads(bytes, at2, p.blank3, p.maxval);
  }

  /** Every header that is read is grammatical. */
  lemma ReadHeaderIsGrammatical(bytes: seq<byte>) returns (p: Parts)
    requires ParseHeader(bytes).Some?
    ensures Grammatical(p) && Text(p) <= bytes && ParseHeader(bytes) == Some(HeaderOf(p))
  {
    hide Blank, NumeralValue, Token, Text, SitsAt;
    var blank1, width := TokenSplits(bytes, 2);
    var at1 := Token(bytes, 2).value.1;
    var blank2, height := TokenSplits(bytes, at1);
    var at2 := Token(bytes, at1).value.1;
    var blank3, maxval := TokenSplits(bytes, at2);
    var at3 := Token(bytes, at2).value.1;
    p := Parts(bytes[1], blank1, width, blank2, height, blank3, maxval, bytes[at3]);
    FirstOfPart(bytes, at1 + |blank2|, height);
    FirstOfPart(bytes, at2 + |blank3|, maxval);
    assert SitsAt(bytes, at3, [bytes[at3]]) by { OneSits(bytes, at3); }
    TextSits(p, bytes);
  }

  lemma OneSits(bytes: seq<byte>, at: nat)
    requires at < |bytes|
    ensures SitsAt(bytes, at, [bytes[at]])
  {
  }

  /** Reading goes by the grammatical header, of which there is at most one. */
  lemma ReadsByGrammar(build: Build, bytes: seq<byte>)
    ensures ParseHeader(bytes).Some? ==> exists p :: Grammatical(p) && Text(p) <= bytes
    ensures forall p :: Grammatical(p) && Text(p) <= bytes ==>
              ParseHeader(bytes) == Some(HeaderOf(p)) && ParsePnm(build, bytes) == ReadPixels(build, bytes, HeaderOf(p))
  {
    hide Blank, NumeralValue, ReadPixels, ParseHeader;
    if ParseHeader(bytes).Some? {
      var p := ReadHeaderIsGrammatical(bytes);
    }
    forall p | Grammatical(p) && Text(p) <= bytes
      ensures ParseHeader(bytes) == Some(HeaderOf(p)) && ParsePnm(build, bytes) == ReadPixels(build, bytes, HeaderOf(p))
    {
      HeaderIsRead(p, bytes);
    }
  }

  /** A grammatical header, then octets that hold the picture, of a size that can
      be reserved. */
  ghost predicate PictureFile(bytes: seq<byte>, p: Parts, data: seq<byte>, r: Raster) {
    && Grammatical(p) && Text(p) + data <= bytes
    && var h := HeaderOf(p);
      && Area(h.width, h.height, 3) < CAPACITY_LIMIT
      && |data| == Area(h.width, h.height, if h.color then 3 else 1)
      && r == Raster(h.width, h.height, if h.color then data else Tripled(data))
  }

  /** The decoder of a build with overflow checks accepts exactly the files that
      start with a grammatical header and enough pixel octets, and answers those
      pixels. */
  lemma AcceptsTheGrammar(bytes: seq<byte>, r: Raster)
    ensures ParsePnm(Checked, bytes) == Answers(Some(r)) <==> exists p, data :: PictureFile(bytes, p, data, r)
  {
    hide Blank, NumeralValue, ParseHeader, Area, Text, Numeral;
    ReadsByGrammar(Checked, bytes);
    if ParsePnm(Checked, bytes) == Answers(Some(r)) {
      var p :| Grammatical(p) && Text(p) <= bytes;
      PixelsFollow(bytes, p, r);
    }
    forall p, data | PictureFile(bytes, p, data, r) ensures ParsePnm(Checked, bytes) == Answers(Some(r)) {
      PictureIsRead(Checked, bytes, p, data, r);
    }
  }

  lemma PixelsFollow(bytes: seq<byte>, p: Parts, r: Raster)
    requires Grammatical(p) && Text(p) <= bytes && ReadPixels(Checked, bytes, HeaderOf(p)) == Answers(Some(r))
    ensures exists data :: PictureFile(bytes, p, data, r)
  {
    hide Blank, NumeralValue, Numeral, Area, Tripled;
    var h := HeaderOf(p);
    ThreeOctetsAPixel(h.width, h.height);
    var size := Area(h.width, h.height, if h.color then 3 else 1);
    var data := bytes[h.dataAt..h.dataAt + size];
    assert Text(p) == bytes[..h.dataAt] && Text(p) + data == bytes[..h.dataAt + size];
    assert PictureFile(bytes, p, data, r);
  }

  lemma PictureIsRead(build: Build, bytes: seq<byte>, p: Parts, data: seq<byte>, r: Raster)
    requires PictureFile(bytes, p, data, r)
    ensures ParsePnm(build, bytes) == Answers(Some(r))
  {
    hide Blank, NumeralValue, Numeral, Area, Tripled, ParseHeader, Text;
    var h := HeaderOf(p);
    assert Text(p) <= bytes by { assert Text(p) <= Text(p) + data; }
    ReadsByGrammar(build, bytes);
    ThreeOctetsAPixel(h.width, h.height);
    assert bytes[h.dataAt..h.dataAt + |data|] == data by { DataFollows(bytes, Text(p), data); }
  }

  lemma DataFollows(bytes: seq<byte>, text: seq<byte>, data: seq<byte>)
    requires text + data <= bytes
    ensures bytes[|text|..|text| + |data|] == data
  {
    assert (text + data)[|text|..] == data;
  }

  /** The header asks for more than can be reserved. */
  ghost predicate AsksForMore(bytes: seq<byte>, p: Parts) {
    && Grammatical(p) && Text(p) <= bytes
    && Area(HeaderOf(p).width, HeaderOf(p).height, 3) >= CAPACITY_LIMIT
  }

  /** With overflow checks the decoder ends the program exactly on such headers,
      however short the file. */
  lemma PanicsExactly(bytes: seq<byte>)
    ensures ParsePnm(Checked, bytes).Panics? <==> exists p :: AsksForMore(bytes, p)
  {
    hide Blank, NumeralValue, ParseHeader, Area, Text, Numeral;
    ReadsByGrammar(Checked, bytes);
    if ParsePnm(Checked, bytes).Panics? {
      var p :| Grammatical(p) && Text(p) <= bytes;
      assert AsksForMore(bytes, p);
    }
  }

  /** The size of a colour picture wraps around to what can be reserved, and to
      `data`. */
  ghost predicate Wraps(bytes: seq<byte>, p: Parts, data: seq<byte>) {
    && Grammatical(p) && Text(p) + data <= bytes && HeaderOf(p).color
    && var size := Area(HeaderOf(p).width, HeaderOf(p).height, 3);
      size >= U64 && |data| == size % U64 < CAPACITY_LIMIT
  }

  /** Without overflow checks the decoder answers, beside those pictures, exactly
      the colour pictures whose size wraps around, with too few pixels. */
  lemma WrappingAnswersExactly(bytes: seq<byte>, r: Raster)
    ensures ParsePnm(Wrapping, bytes) == Answers(Some(r)) <==>
            || ParsePnm(Checked, bytes) == Answers(Some(r))
            || exists p, data :: Wraps(bytes, p, data) && r == Raster(HeaderOf(p).width, HeaderOf(p).height, data)
  {
    hide Blank, NumeralValue, ParseHeader, Area, Text, Numeral;
    ReadsByGrammar(Checked, bytes);
    ReadsByGrammar(Wrapping, bytes);
    if ParsePnm(Wrapping, bytes) == Answers(Some(r)) && ParsePnm(Checked, bytes) != Answers(Some(r)) {
      var p :| Grammatical(p) && Text(p) <= bytes;
      WrappedFollows(bytes, p, r);
    }
    forall p, data | Wraps(bytes, p, data)
      ensures ParsePnm(Wrapping, bytes) == Answers(Some(Raster(HeaderOf(p).width, HeaderOf(p).height, data)))
    {
      assert Text(p) <= bytes by { assert Text(p) <= Text(p) + data; }
      DataFollows(bytes, Text(p), data);
    }
  }

  /** And it ends the program exactly where what the size wraps around to cannot be
      reserved, or where a gray picture that long is really there. */
  lemma WrappingPanicsExactly(bytes: seq<byte>)
    ensures ParsePnm(Wrapping, bytes).Panics? <==>
            exists p :: Grammatical(p) && Text(p) <= bytes && RunsOver(bytes, HeaderOf(p))
  {
    hide Blank, NumeralValue, ParseHeader, Area, Text, Numeral;
    ReadsByGrammar(Wrapping, bytes);
    if ParsePnm(Wrapping, bytes).Panics? {
      var p :| Grammatical(p) && Text(p) <= bytes;
      assert RunsOver(bytes, HeaderOf(p));
    }
  }

  ghost predicate RunsOver(bytes: seq<byte>, h: PnmHeader) {
    var size := Area(h.width, h.height, 3);
    || size % U64 >= CAPACITY_LIMIT
    || (!h.color && size >= U64 && h.dataAt + Area(h.width, h.height, 1) <= |bytes|)
  }

  lemma WrappedFollows(bytes: seq<byte>, p: Parts, r: Raster)
    requires Grammatical(p) && Text(p) <= bytes && ReadPixels(Wrapping, bytes, HeaderOf(p)) == Answers(Some(r))
    requires ReadPixels(Checked, bytes, HeaderOf(p)) != Answers(Some(r))
    ensures exists data :: Wraps(bytes, p, data) && r == Raster(HeaderOf(p).width, HeaderOf(p).height, data)
  {
    hide Blank, NumeralValue, Numeral, Area, Tripled;
    var h := HeaderOf(p);
    var size := Area(h.width, h.height, 3) % U64;
    var data := bytes[h.dataAt..h.dataAt + size];
    assert Text(p) == bytes[..h.dataAt] && Text(p) + data == bytes[..h.dataAt + size];
    assert Wraps(bytes, p, data);
  }
}
