/** RIFF/WAVE PCM: the chunk scan, and the peak envelope of the samples. */
module Waveform {
  import opened Bytes
  import opened Numbers
  import opened Wrappers

  const BUCKETS: nat := 64

  datatype Format = Format(channels: nat, sampleRate: nat, bits: nat, blockAlign: nat)

  const RIFF: seq<byte> := ['R' as int, 'I' as int, 'F' as int, 'F' as int]
  const WAVE: seq<byte> := ['W' as int, 'A' as int, 'V' as int, 'E' as int]
  const FMT: seq<byte> := ['f' as int, 'm' as int, 't' as int, ' ' as int]
  const DATA: seq<byte> := ['d' as int, 'a' as int, 't' as int, 'a' as int]

  // ------------------------------------------------------------------
  // Chunks.
  // ------------------------------------------------------------------

  /** What the scan remembers: the last format and the last data chunk. */
  datatype Scan = Refused | Scan(format: Option<Format>, data: Option<seq<byte>>)

  function ReadFormat(body: seq<byte>): Option<Format> {
    if |body| < 16 then None
    else
      var audioFormat, channels := ReadU16(body, 0).value, ReadU16(body, 2).value;
      var sampleRate, blockAlign, bits := ReadU32(body, 4).value, ReadU16(body, 12).value, ReadU16(body, 14).value;
      if audioFormat != 1 || channels == 0 || (bits != 8 && bits != 16) then None
      else Some(Format(channels, sampleRate, bits, blockAlign))
  }

  /** One chunk's effect; a format chunk that is not PCM ends the scan. */
  function Absorb(s: Scan, id: seq<byte>, body: seq<byte>): Scan {
    if s.Refused? then Refused
    else if id == FMT then
      var format := ReadFormat(body);
      if format.None? then Refused else s.(format := format)
    else if id == DATA then s.(data := Some(body))
    else s
  }

  function ScanFrom(bytes: seq<byte>, at: nat, s: Scan): Scan
    decreases |bytes| - at
  {
    if s.Refused? || |bytes| < at + 8 then s
    else
      var size := ReadU32(bytes, at + 4).value;
      if |bytes| < at + 8 + size then Refused
      else ScanFrom(bytes, at + 8 + size + size % 2, Absorb(s, bytes[at..at + 4], bytes[at + 8..at + 8 + size]))
  }

  function ScanFile(bytes: seq<byte>): Scan {
    if |bytes| < 12 || bytes[0..4] != RIFF || bytes[8..12] != WAVE then Refused
    else ScanFrom(bytes, 12, Scan(None, None))
  }

  method ReadChunks(bytes: seq<byte>) returns (r: Scan)
    ensures r == ScanFile(bytes)
  {
    hide Absorb, ReadU32;
    if |bytes| < 12 || bytes[0..4] != RIFF || bytes[8..12] != WAVE {
      return Refused;
    }
    r := Scan(None, None);
    var cursor := 12;
    while cursor + 8 <= |bytes|
      invariant ScanFrom(bytes, cursor, r) == ScanFile(bytes) && r != Refused
      decreases |bytes| - cursor
    {
      var id, size := bytes[cursor..cursor + 4], ReadU32(bytes, cursor + 4).value;
      if |bytes| < cursor + 8 + size {
        return Refused;
      }
      r := Absorb(r, id, bytes[cursor + 8..cursor + 8 + size]);
      if r == Refused {
        return;
      }
      cursor := cursor + 8 + size + size % 2;
    }
  }

  datatype Chunk = Chunk(id: seq<byte>, body: seq<byte>, padding: byte)

  ghost predicate ChunkOk(c: Chunk) {
    |c.id| == 4 && |c.body| < U32
  }

  function WriteChunk(c: Chunk): seq<byte>
    requires ChunkOk(c)
  {
    c.id + WriteU32(|c.body|) + c.body + (if |c.body| % 2 == 1 then [c.padding] else [])
  }

  function WriteChunks(chunks: seq<Chunk>): seq<byte>
    requires forall i :: 0 <= i < |chunks| ==> ChunkOk(chunks[i])
  {
    if chunks == [] then [] else WriteChunk(chunks[0]) + WriteChunks(chunks[1..])
  }

  function AbsorbAll(s: Scan, chunks: seq<Chunk>): Scan
    decreases |chunks|
  {
    if chunks == [] then s else AbsorbAll(Absorb(s, chunks[0].id, chunks[0].body), chunks[1..])
  }

  lemma {:induction false} RefusedStays(chunks: seq<Chunk>)
    ensures AbsorbAll(Refused, chunks) == Refused
  {
    if chunks != [] {
      RefusedStays(chunks[1..]);
    }
  }

  lemma ChunkIsRead(prefix: seq<byte>, c: Chunk, rest: seq<byte>)
    requires ChunkOk(c)
    ensures var bytes, at := prefix + WriteChunk(c) + rest, |prefix|;
      && |bytes| >= at + 8 + |c.body| && ReadU32(bytes, at + 4) == Some(|c.body|)
      && bytes[at..at + 4] == c.id && bytes[at + 8..at + 8 + |c.body|] == c.body
      && |prefix + WriteChunk(c)| == at + 8 + |c.body| + |c.body| % 2
  {
    hide ReadU32, WriteU32;
    var bytes, at := prefix + WriteChunk(c) + rest, |prefix|;
    assert bytes[at + 4..at + 8] == WriteU32(|c.body|);
    ReadWrittenU32(bytes, at + 4, |c.body|);
  }

  /** The octets are these chunks and then too few for another: fewer than a chunk
      header, or a header that announces more than there are. A last chunk may lack
      its padding. */
  ghost predicate Laid(tail: seq<byte>, chunks: seq<Chunk>, rest: seq<byte>, short: bool) {
    && (forall i :: 0 <= i < |chunks| ==> ChunkOk(chunks[i]))
    && tail + (if short then [0] else []) == WriteChunks(chunks) + rest
    && (short ==> rest == [] && chunks != [] && |chunks[|chunks| - 1].body| % 2 == 1)
    && (|rest| >= 8 ==> |rest| < 8 + ReadU32(rest, 4).value)
  }

  ghost predicate Truncated(rest: seq<byte>) {
    |rest| >= 8
  }

  lemma HeaderShifted(prefix: seq<byte>, tail: seq<byte>)
    ensures ReadU32(prefix + tail, |prefix| + 4) == ReadU32(tail, 4)
  {
  }

  /** Without its padding a chunk is all there is. */
  lemma ShortChunk(tail: seq<byte>, c: Chunk)
    requires ChunkOk(c) && |c.body| % 2 == 1 && tail + [0] == WriteChunk(c)
    ensures |tail| == 8 + |c.body| && ReadU32(tail, 4) == Some(|c.body|)
    ensures tail[0..4] == c.id && tail[8..8 + |c.body|] == c.body
  {
    hide ReadU32, WriteU32;
    assert tail == WriteChunk(c)[..|tail|];
    assert tail[4..8] == WriteU32(|c.body|);
    ReadWrittenU32(tail, 4, |c.body|);
  }

  lemma LaidFirst(tail: seq<byte>, chunks: seq<Chunk>, rest: seq<byte>, short: bool)
    requires Laid(tail, chunks, rest, short) && chunks != [] && !(short && |chunks| == 1)
    ensures |WriteChunk(chunks[0])| <= |tail| && tail[..|WriteChunk(chunks[0])|] == WriteChunk(chunks[0])
    ensures Laid(tail[|WriteChunk(chunks[0])|..], chunks[1..], rest, short)
  {
    hide WriteChunk, ReadU32;
    var c, more, pad := chunks[0], chunks[1..], if short then [0] else [];
    var n := |WriteChunk(c)|;
    assert tail + pad == WriteChunk(c) + (WriteChunks(more) + rest);
    if short {
      ChunkIsNotEmpty(more[0]);
    }
    assert tail == (tail + pad)[..|tail|];
    assert tail[n..] + pad == (tail + pad)[n..] == WriteChunks(more) + rest;
  }

  lemma ChunkIsNotEmpty(c: Chunk)
    requires ChunkOk(c)
    ensures |WriteChunk(c)| >= 8
  {
  }

  /** Octets laid out as chunks, of any lengths and in any order, are scanned chunk
      by chunk; a truncated one ends the scan. */
  lemma {:induction false} ChunksAreScanned(prefix: seq<byte>, tail: seq<byte>, chunks: seq<Chunk>, rest: seq<byte>, short: bool, s: Scan)
    requires Laid(tail, chunks, rest, short)
    ensures ScanFrom(prefix + tail, |prefix|, s) == if Truncated(rest) then Refused else AbsorbAll(s, chunks)
    decreases |chunks|
  {
    hide Absorb, ReadU32, WriteChunk, ScanFrom, Laid;
    if s.Refused? {
      RefusedStays(chunks);
      ScanStops(prefix + tail, |prefix|, s);
    } else if chunks == [] {
      NothingLaid(tail, rest, short);
      NoMoreChunks(prefix, tail, s);
    } else if short && |chunks| == 1 {
      OneShortChunk(prefix, tail, chunks, rest, s);
    } else {
      var c, more := chunks[0], chunks[1..];
      LaidFirst(tail, chunks, rest, short);
      LaidIsOk(tail, chunks, rest, short);
      var n := |WriteChunk(c)|;
      assert prefix + tail == (prefix + WriteChunk(c)) + tail[n..];
      OneChunk(prefix, c, tail[n..], s);
      ChunksAreScanned(prefix + WriteChunk(c), tail[n..], more, rest, short, Absorb(s, c.id, c.body));
    }
  }

  lemma LaidIsOk(tail: seq<byte>, chunks: seq<Chunk>, rest: seq<byte>, short: bool)
    requires Laid(tail, chunks, rest, short)
    ensures forall i :: 0 <= i < |chunks| ==> ChunkOk(chunks[i])
  {
  }

  lemma NothingLaid(tail: seq<byte>, rest: seq<byte>, short: bool)
    requires Laid(tail, [], rest, short)
    ensures tail == rest && (|tail| >= 8 ==> |tail| < 8 + ReadU32(tail, 4).value)
  {
    hide ReadU32;
    assert tail == tail + [] && WriteChunks([]) + rest == rest;
  }

  lemma ScanStops(bytes: seq<byte>, at: nat, s: Scan)
    requires s.Refused? || |bytes| < at + 8
    ensures ScanFrom(bytes, at, s) == s
  {
  }

  lemma NoMoreChunks(prefix: seq<byte>, tail: seq<byte>, s: Scan)
    requires !s.Refused? && (|tail| >= 8 ==> |tail| < 8 + ReadU32(tail, 4).value)
    ensures ScanFrom(prefix + tail, |prefix|, s) == if |tail| >= 8 then Refused else s
  {
    hide ReadU32, Absorb;
    HeaderShifted(prefix, tail);
  }

  lemma OneChunk(prefix: seq<byte>, c: Chunk, rest: seq<byte>, s: Scan)
    requires !s.Refused? && ChunkOk(c)
    ensures var bytes := prefix + WriteChunk(c) + rest;
      ScanFrom(bytes, |prefix|, s) == ScanFrom(bytes, |prefix + WriteChunk(c)|, Absorb(s, c.id, c.body))
  {
    hide Absorb, ReadU32, WriteChunk;
    ChunkIsRead(prefix, c, rest);
  }

  lemma OneShortChunk(prefix: seq<byte>, tail: seq<byte>, chunks: seq<Chunk>, rest: seq<byte>, s: Scan)
    requires !s.Refused? && |chunks| == 1 && Laid(tail, chunks, rest, true)
    ensures ScanFrom(prefix + tail, |prefix|, s) == AbsorbAll(s, chunks) && !Truncated(rest)
  {
    hide Absorb, ReadU32, WriteChunk, ScanFrom;
    var c, bytes, at := chunks[0], prefix + tail, |prefix|;
    assert WriteChunks(chunks) + rest == WriteChunk(c);
    ShortChunk(tail, c);
    HeaderShifted(prefix, tail);
    assert bytes[at..at + 4] == tail[0..4] && bytes[at + 8..at + 8 + |c.body|] == tail[8..8 + |c.body|];
    ShortStep(bytes, at, c, s);
    assert AbsorbAll(s, chunks) == AbsorbAll(Absorb(s, c.id, c.body), []);
  }

  lemma ShortStep(bytes: seq<byte>, at: nat, c: Chunk, s: Scan)
    requires !s.Refused? && |bytes| == at + 8 + |c.body| && |c.body| % 2 == 1 && ReadU32(bytes, at + 4) == Some(|c.body|)
    requires bytes[at..at + 4] == c.id && bytes[at + 8..at + 8 + |c.body|] == c.body
    ensures ScanFrom(bytes, at, s) == Absorb(s, c.id, c.body)
  {
    hide Absorb, ReadU32;
  }

  /** All octets are so laid out, in one way that the lemma finds. */
  lemma {:induction false} EveryTailIsLaid(tail: seq<byte>) returns (chunks: seq<Chunk>, rest: seq<byte>, short: bool)
    ensures Laid(tail, chunks, rest, short)
    decreases |tail|
  {
    hide ReadU32, WriteU32;
    chunks, rest, short := [], tail, false;
    if |tail| >= 8 {
      var size := ReadU32(tail, 4).value;
      WrittenAsRead(tail, 4);
      if 8 + size <= |tail| {
        if size % 2 == 1 && |tail| == 8 + size {
          var c := Chunk(tail[..4], tail[8..8 + size], 0);
          assert tail + [0] == WriteChunk(c);
          assert WriteChunks([c]) == WriteChunk(c);
          chunks, rest, short := [c], [], true;
        } else {
          var n := 8 + size + size % 2;
          var c := Chunk(tail[..4], tail[8..8 + size], if size % 2 == 1 then tail[8 + size] else 0);
          assert tail[..n] == WriteChunk(c);
          var more;
          more, rest, short := EveryTailIsLaid(tail[n..]);
          LaidOneMore(tail, n, c, more, rest, short);
          chunks := [c] + more;
        }
      }
    }
  }

  lemma LaidOneMore(tail: seq<byte>, n: nat, c: Chunk, more: seq<Chunk>, rest: seq<byte>, short: bool)
    requires n <= |tail| && ChunkOk(c) && tail[..n] == WriteChunk(c) && Laid(tail[n..], more, rest, short)
    ensures Laid(tail, [c] + more, rest, short)
  {
    hide WriteChunk, ReadU32;
    assert ([c] + more)[1..] == more;
    assert tail == tail[..n] + tail[n..];
    var pad: seq<byte> := if short then [0] else [];
    assert tail + pad == tail[..n] + (tail[n..] + pad);
  }

  // ------------------------------------------------------------------
  // Which files hold sound, octet by octet.
  // ------------------------------------------------------------------

  /** The body of the last chunk with this name. */
  ghost function LastBody(chunks: seq<Chunk>, id: seq<byte>): Option<seq<byte>> {
    if chunks == [] then None
    else if chunks[|chunks| - 1].id == id then Some(chunks[|chunks| - 1].body)
    else LastBody(chunks[..|chunks| - 1], id)
  }

  /** Sixteen octets or more that say: format 1, so many channels, samples a second,
      octets a frame and, as 8 or 16, bits a sample. */
  ghost predicate SaysPcm(body: seq<byte>, f: Format) {
    && |body| >= 16 && body[0] == 1 && body[1] == 0
    && f.channels == body[2] as int + 256 * body[3] as int && f.channels > 0
    && f.sampleRate ==
       body[4] as int + 256 * body[5] as int + 65536 * body[6] as int + 16777216 * body[7] as int
    && f.blockAlign == body[12] as int + 256 * body[13] as int
    && f.bits == body[14] as int && body[14] in {8, 16} && body[15] == 0
  }

  lemma FormatExactly(body: seq<byte>, f: Format)
    ensures ReadFormat(body) == Some(f) <==> SaysPcm(body, f)
  {
  }

  lemma {:induction false} AbsorbLast(s: Scan, chunks: seq<Chunk>)
    requires chunks != []
    ensures var n := |chunks| - 1;
      AbsorbAll(s, chunks) == Absorb(AbsorbAll(s, chunks[..n]), chunks[n].id, chunks[n].body)
    decreases |chunks|
  {
    hide Absorb;
    var n := |chunks| - 1;
    if n > 0 {
      AbsorbLast(Absorb(s, chunks[0].id, chunks[0].body), chunks[1..]);
      assert chunks[1..][..n - 1] == chunks[..n][1..];
    }
  }

  /** Chunks come to a format and data exactly when every format chunk is PCM, the
      last of them says this format, and the last data chunk holds this data. */
  lemma {:induction false} ChunksComeTo(chunks: seq<Chunk>)
    ensures var s := AbsorbAll(Scan(None, None), chunks);
      && (s.Refused? <==> exists c :: c in chunks && c.id == FMT && ReadFormat(c.body).None?)
      && (!s.Refused? ==>
            && s.data == LastBody(chunks, DATA)
            && s.format == (if LastBody(chunks, FMT).None? then None else ReadFormat(LastBody(chunks, FMT).value)))
  {
    hide ReadFormat;
    if chunks != [] {
      var n := |chunks| - 1;
      ChunksComeTo(chunks[..n]);
      AbsorbLast(Scan(None, None), chunks);
      assert chunks == chunks[..n] + [chunks[n]];
    }
  }

  /** The file is RIFF and WAVE around whole chunks; each that is named `fmt ` says
      PCM, the last of them this format, and the last named `data` holds this data. */
  ghost predicate SoundFile(bytes: seq<byte>, f: Format, data: seq<byte>, chunks: seq<Chunk>, rest: seq<byte>, short: bool) {
    && |bytes| >= 12 && bytes[0..4] == [0x52, 0x49, 0x46, 0x46] && bytes[8..12] == [0x57, 0x41, 0x56, 0x45]
    && Laid(bytes[12..], chunks, rest, short) && |rest| < 8
    && (forall c :: c in chunks && c.id == [0x66, 0x6D, 0x74, 0x20] ==> exists g :: SaysPcm(c.body, g))
    && LastBody(chunks, [0x66, 0x6D, 0x74, 0x20]).Some? && SaysPcm(LastBody(chunks, [0x66, 0x6D, 0x74, 0x20]).value, f)
    && LastBody(chunks, [0x64, 0x61, 0x74, 0x61]) == Some(data)
  }

  lemma FileIsScanned(bytes: seq<byte>, chunks: seq<Chunk>, rest: seq<byte>, short: bool)
    requires |bytes| >= 12 && bytes[0..4] == RIFF && bytes[8..12] == WAVE && Laid(bytes[12..], chunks, rest, short)
    ensures ScanFile(bytes) == if Truncated(rest) then Refused else AbsorbAll(Scan(None, None), chunks)
  {
    hide Laid, ScanFrom;
    assert bytes == bytes[..12] + bytes[12..];
    ChunksAreScanned(bytes[..12], bytes[12..], chunks, rest, short, Scan(None, None));
  }

  lemma PcmOrNot(body: seq<byte>)
    ensures ReadFormat(body).Some? <==> exists g :: SaysPcm(body, g)
  {
    hide ReadFormat, SaysPcm;
    forall g ensures ReadFormat(body) == Some(g) <==> SaysPcm(body, g) {
      FormatExactly(body, g);
    }
    assert ReadFormat(body).Some? ==> SaysPcm(body, ReadFormat(body).value);
  }

  lemma SoundFileIsRead(bytes: seq<byte>, f: Format, data: seq<byte>, chunks: seq<Chunk>, rest: seq<byte>, short: bool)
    requires |bytes| >= 12 && bytes[0..4] == RIFF && bytes[8..12] == WAVE && Laid(bytes[12..], chunks, rest, short)
    ensures ScanFile(bytes) == Scan(Some(f), Some(data)) <==> SoundFile(bytes, f, data, chunks, rest, short)
  {
    hide Laid, ScanFrom, ScanFile, AbsorbAll, LastBody, ReadFormat, SaysPcm;
    FileIsScanned(bytes, chunks, rest, short);
    ChunksComeTo(chunks);
    forall c | c in chunks ensures ReadFormat(c.body).Some? <==> exists g :: SaysPcm(c.body, g) {
      PcmOrNot(c.body);
    }
    if LastBody(chunks, FMT).Some? {
      FormatExactly(LastBody(chunks, FMT).value, f);
    }
    SpelledOut();
  }

  lemma SpelledOut()
    ensures RIFF == [0x52, 0x49, 0x46, 0x46] && WAVE == [0x57, 0x41, 0x56, 0x45]
    ensures FMT == [0x66, 0x6D, 0x74, 0x20] && DATA == [0x64, 0x61, 0x74, 0x61]
  {
  }

  /** The scan of any octets finds a format and data exactly in such files. */
  lemma SoundFileExactly(bytes: seq<byte>, f: Format, data: seq<byte>)
    ensures ScanFile(bytes) == Scan(Some(f), Some(data))
       <==> exists chunks, rest, short :: SoundFile(bytes, f, data, chunks, rest, short)
  {
    hide Laid, ScanFrom, LastBody, SaysPcm;
    SpelledOut();
    if |bytes| >= 12 && bytes[0..4] == RIFF && bytes[8..12] == WAVE {
      var chunks, rest, short := EveryTailIsLaid(bytes[12..]);
      SoundFileIsRead(bytes, f, data, chunks, rest, short);
      forall cs, r, sh | SoundFile(bytes, f, data, cs, r, sh) ensures ScanFile(bytes) == Scan(Some(f), Some(data)) {
        SoundFileIsRead(bytes, f, data, cs, r, sh);
      }
    }
  }

  /** The body of a PCM format chunk. */
  function WriteFormat(f: Format, byteRate: nat): seq<byte>
    requires f.channels < U16 && f.sampleRate < U32 && byteRate < U32 && f.blockAlign < U16 && f.bits < U16
  {
    WriteU16(1) + WriteU16(f.channels) + WriteU32(f.sampleRate) + WriteU32(byteRate)
    + WriteU16(f.blockAlign) + WriteU16(f.bits)
  }

  lemma FormatReadsBack(f: Format, byteRate: nat, extra: seq<byte>)
    requires f.channels < U16 && f.sampleRate < U32 && byteRate < U32 && f.blockAlign < U16 && FormatOk(f)
    ensures ReadFormat(WriteFormat(f, byteRate) + extra) == Some(f)
  {
    hide ReadU16, ReadU32, WriteU16, WriteU32;
    var body := WriteFormat(f, byteRate) + extra;
    assert body[0..2] == WriteU16(1) && body[2..4] == WriteU16(f.channels) && body[4..8] == WriteU32(f.sampleRate);
    assert body[12..14] == WriteU16(f.blockAlign) && body[14..16] == WriteU16(f.bits);
    ReadWrittenU16(body, 0, 1);
    ReadWrittenU16(body, 2, f.channels);
    ReadWrittenU32(body, 4, f.sampleRate);
    ReadWrittenU16(body, 12, f.blockAlign);
    ReadWrittenU16(body, 14, f.bits);
  }

  // ------------------------------------------------------------------
  // The peak envelope.
  // ------------------------------------------------------------------

  function SampleBytes(f: Format): nat {
    f.bits / 8
  }

  /** Octets from one frame to the next. */
  function Align(f: Format): nat {
    var packed := f.channels * SampleBytes(f);
    if f.blockAlign >= packed then f.blockAlign else packed
  }

  ghost predicate FormatOk(f: Format) {
    0 < f.channels && (f.bits == 8 || f.bits == 16)
  }

  function Bucket(frame: nat, frames: nat): (b: nat)
    requires frame < frames
    ensures b < BUCKETS
  {
    assert frame * BUCKETS < frames * BUCKETS;
    BucketBelow(frame * BUCKETS, frames);
    frame * BUCKETS / frames
  }

  lemma BucketBelow(n: nat, frames: nat)
    requires 0 < frames && n < frames * BUCKETS
    ensures n / frames < BUCKETS
  {
    assert (n / frames) * frames <= n;
    assert (n / frames - BUCKETS) * frames < 0;
  }

  function SampleAt(f: Format, frame: nat, channel: nat): nat {
    Offset(frame, Align(f), Offset(channel, SampleBytes(f), 0))
  }

  /** Every sample of a whole frame lies inside the data. */
  lemma SampleInBounds(data: seq<byte>, f: Format, frame: nat, channel: nat)
    requires FormatOk(f) && channel < f.channels && Align(f) > 0 && frame < |data| / Align(f)
    ensures SampleAt(f, frame, channel) + SampleBytes(f) <= |data|
  {
    var align := Align(f);
    InGrid(channel, f.channels, SampleBytes(f), SampleBytes(f) - 1);
    assert Offset(channel, SampleBytes(f), 0) + SampleBytes(f) - 1 == Offset(channel, SampleBytes(f), SampleBytes(f) - 1);
    InGrid(frame, |data| / align, align, Offset(channel, SampleBytes(f), SampleBytes(f) - 1));
    assert (|data| / align) * align <= |data|;
  }

  /** A sample's distance from silence, on the 16-bit scale. */
  function Magnitude(data: seq<byte>, f: Format, frame: nat, channel: nat): (m: nat)
    requires FormatOk(f) && channel < f.channels && Align(f) > 0 && frame < |data| / Align(f)
    ensures m <= 32_768
  {
    SampleInBounds(data, f, frame, channel);
    var at := SampleAt(f, frame, channel);
    if f.bits == 8 then
      var b: int := data[at];
      (if b >= 128 then b - 128 else 128 - b) * 256
    else
      var word: int := ReadU16(data, at).value;
      if word < 0x8000 then word else U16 - word
  }

  /** The octets of a sample `x` of the PCM encoding: offset binary for eight
      bits, two's complement for sixteen. */
  function Pcm(bits: nat, x: int): (s: seq<byte>)
    requires bits == 8 ==> -128 <= x < 128
    requires bits != 8 ==> -32_768 <= x < 32_768
  {
    if bits == 8 then [x + 128] else WriteU16(if x < 0 then x + U16 else x)
  }

  lemma MagnitudeOfPcm(data: seq<byte>, f: Format, frame: nat, channel: nat, x: int)
    requires FormatOk(f) && channel < f.channels && Align(f) > 0 && frame < |data| / Align(f)
    requires if f.bits == 8 then -128 <= x < 128 else -32_768 <= x < 32_768
    requires SampleAt(f, frame, channel) + SampleBytes(f) <= |data|
    requires data[SampleAt(f, frame, channel)..SampleAt(f, frame, channel) + SampleBytes(f)] == Pcm(f.bits, x)
    ensures Magnitude(data, f, frame, channel) == (if x < 0 then -x else x) * (if f.bits == 8 then 256 else 1)
  {
    hide SampleAt, Align, ReadU16, WriteU16;
    var at := SampleAt(f, frame, channel);
    if f.bits == 8 {
      assert data[at] == data[at..at + 1][0];
    } else {
      ReadWrittenU16(data, at, if x < 0 then x + U16 else x);
    }
  }

  /** The sample comes before channel `channel` of frame `frame`. */
  predicate Before(fr: nat, ch: nat, frame: nat, channel: nat) {
    fr < frame || (fr == frame && ch < channel)
  }

  /** `peak` is the largest magnitude among the samples before the given one
      whose frames fall in bucket `b`, and zero when there are none. */
  ghost predicate IsPeakSoFar(data: seq<byte>, f: Format, frame: nat, channel: nat, b: nat, peak: nat)
    requires FormatOk(f) && Align(f) > 0
  {
    var frames := |data| / Align(f);
    && (forall fr: nat, ch: nat {:trigger Magnitude(data, f, fr, ch)} ::
          fr < frames && ch < f.channels && Before(fr, ch, frame, channel) && Bucket(fr, frames) == b ==>
            Magnitude(data, f, fr, ch) <= peak)
    && (peak > 0 ==>
          exists fr: nat, ch: nat ::
            && fr < frames && ch < f.channels && Before(fr, ch, frame, channel) && Bucket(fr, frames) == b
            && Magnitude(data, f, fr, ch) == peak)
  }

  /** The peak of bucket `b` over all frames and channels. */
  ghost predicate IsPeak(data: seq<byte>, f: Format, b: nat, peak: nat)
    requires FormatOk(f) && Align(f) > 0
  {
    IsPeakSoFar(data, f, |data| / Align(f), 0, b, peak)
  }

  lemma PeakIsUnique(data: seq<byte>, f: Format, b: nat, p: nat, q: nat)
    requires FormatOk(f) && Align(f) > 0 && IsPeak(data, f, b, p) && IsPeak(data, f, b, q)
    ensures p == q
  {
  }

  lemma PeakIsBounded(data: seq<byte>, f: Format, b: nat, peak: nat)
    requires FormatOk(f) && Align(f) > 0 && IsPeak(data, f, b, peak)
    ensures peak <= 32_768
  {
  }

  lemma AlignIsPositive(f: Format)
    requires FormatOk(f)
    ensures Align(f) > 0
  {
  }

  lemma PeakStep(data: seq<byte>, f: Format, frame: nat, channel: nat, b: nat, peak: nat)
    requires FormatOk(f) && Align(f) > 0 && frame < |data| / Align(f) && channel < f.channels
    requires IsPeakSoFar(data, f, frame, channel, b, peak)
    ensures var m := Magnitude(data, f, frame, channel);
      IsPeakSoFar(data, f, frame, channel + 1, b,
                  if Bucket(frame, |data| / Align(f)) == b then Max(peak, m) else peak)
  {
    hide Magnitude, Bucket, Align, FormatOk;
    var frames, m := |data| / Align(f), Magnitude(data, f, frame, channel);
    forall fr: nat, ch: nat | fr < frames && ch < f.channels
      ensures Before(fr, ch, frame, channel + 1) <==> Before(fr, ch, frame, channel) || (fr == frame && ch == channel)
    {
    }
  }

  lemma FrameDone(data: seq<byte>, f: Format, frame: nat, b: nat, peak: nat)
    requires FormatOk(f) && Align(f) > 0 && IsPeakSoFar(data, f, frame, f.channels, b, peak)
    ensures IsPeakSoFar(data, f, frame + 1, 0, b, peak)
  {
    hide Magnitude, Bucket, Align, FormatOk;
  }

  method Envelope(data: seq<byte>, f: Format) returns (peaks: seq<nat>)
    requires FormatOk(f) && Align(f) > 0
    ensures |peaks| == BUCKETS
    ensures forall b :: 0 <= b < BUCKETS ==> IsPeak(data, f, b, peaks[b]) && peaks[b] <= 32_768
  {
    hide IsPeakSoFar, Magnitude, Bucket, Align;
    var frames := |data| / Align(f);
    peaks := seq(BUCKETS, b => 0);
    forall b | 0 <= b < BUCKETS ensures IsPeakSoFar(data, f, 0, 0, b, 0) {
      NothingYet(data, f, b);
    }
    for frame := 0 to frames
      invariant |peaks| == BUCKETS
      invariant forall b :: 0 <= b < BUCKETS ==> IsPeakSoFar(data, f, frame, 0, b, peaks[b])
    {
      var bucket := Bucket(frame, frames);
      for channel := 0 to f.channels
        invariant |peaks| == BUCKETS
        invariant forall b :: 0 <= b < BUCKETS ==> IsPeakSoFar(data, f, frame, channel, b, peaks[b])
      {
        forall b | 0 <= b < BUCKETS
          ensures IsPeakSoFar(data, f, frame, channel + 1, b,
                    if bucket == b then Max(peaks[b], Magnitude(data, f, frame, channel)) else peaks[b])
        {
          PeakStep(data, f, frame, channel, b, peaks[b]);
        }
        peaks := peaks[bucket := Max(peaks[bucket], Magnitude(data, f, frame, channel))];
      }
      forall b | 0 <= b < BUCKETS ensures IsPeakSoFar(data, f, frame + 1, 0, b, peaks[b]) {
        FrameDone(data, f, frame, b, peaks[b]);
      }
    }
    forall b | 0 <= b < BUCKETS ensures peaks[b] <= 32_768 {
      PeakIsBounded(data, f, b, peaks[b]);
    }
  }

  lemma NothingYet(data: seq<byte>, f: Format, b: nat)
    requires FormatOk(f) && Align(f) > 0
    ensures IsPeakSoFar(data, f, 0, 0, b, 0)
  {
  }

  /** With at least as many frames as buckets no bucket is empty. */
  lemma EveryBucketIsFed(frames: nat, b: nat) returns (frame: nat)
    requires frames >= BUCKETS && b < BUCKETS
    ensures frame < frames && Bucket(frame, frames) == b
  {
    frame := CeilingOf(b * frames);
    LastMultiple(b, frames);
    QuotientIs(frame * BUCKETS, frames, b, frame * BUCKETS - b * frames);
  }

  function CeilingOf(n: nat): (k: nat)
    ensures n <= k * BUCKETS < n + BUCKETS
  {
    (n + BUCKETS - 1) / BUCKETS
  }

  lemma LastMultiple(b: nat, frames: nat)
    requires b < BUCKETS
    ensures b * frames + frames <= frames * BUCKETS
  {
    assert (BUCKETS - b - 1) * frames >= 0;
  }

  lemma QuotientIs(n: nat, d: nat, q: nat, r: nat)
    requires r < d && n == q * d + r
    ensures n / d == q
  {
    var k := n / d;
    assert (k - q) * d == r - n % d;
    SmallMultiple(k - q, d);
  }

  lemma SmallMultiple(k: int, d: nat)
    requires -(d as int) < k * d < d
    ensures k == 0
  {
    assert k >= 1 ==> (k - 1) * d >= 0;
    assert k <= -1 ==> (-k - 1) * d >= 0;
  }

  datatype AudioPreview = AudioPreview(durationMs: nat, sampleRate: nat, channels: nat, frames: nat, peaks: seq<nat>)

  const U64_MAX: nat := 0xFFFF_FFFF_FFFF_FFFF

  function Duration(frames: nat, sampleRate: nat): nat {
    Min(frames * 1000, U64_MAX) / Max(sampleRate, 1)
  }

  /** The duration is the whole number of milliseconds the frames last. A rate of
      zero counts as one, and the product stops at the largest 64-bit number. */
  lemma DurationIsInMilliseconds(frames: nat, sampleRate: nat)
    ensures var ms, rate := Duration(frames, sampleRate), Max(sampleRate, 1);
      ms * rate <= Min(frames * 1000, U64_MAX) < (ms + 1) * rate
  {
    var n, ms, rate := Min(frames * 1000, U64_MAX), Duration(frames, sampleRate), Max(sampleRate, 1);
    assert n == ms * rate + n % rate;
  }

  lemma {:induction false} ScannedFormatIsOk(bytes: seq<byte>, at: nat, s: Scan)
    requires s.Scan? && s.format.Some? ==> FormatOk(s.format.value)
    ensures var r := ScanFrom(bytes, at, s); r.Scan? && r.format.Some? ==> FormatOk(r.format.value)
    decreases |bytes| - at
  {
    if s.Scan? && |bytes| >= at + 8 {
      var size := ReadU32(bytes, at + 4).value;
      if |bytes| >= at + 8 + size {
        ScannedFormatIsOk(bytes, at + 8 + size + size % 2,
                          Absorb(s, bytes[at..at + 4], bytes[at + 8..at + 8 + size]));
      }
    }
  }

  /** A preview exists exactly when the scan found a format and at least one
      whole frame of data; its figures are those of that format and data. */
  method DecodeWav(bytes: seq<byte>) returns (r: Option<AudioPreview>)
    ensures var s := ScanFile(bytes);
      r.Some? <==> s.Scan? && s.format.Some? && s.data.Some? && Align(s.format.value) > 0
                   && |s.data.value| >= Align(s.format.value)
    ensures r.Some? ==>
              var f, data := ScanFile(bytes).format.value, ScanFile(bytes).data.value;
              && FormatOk(f) && r.value.frames == |data| / Align(f)
              && r.value.sampleRate == f.sampleRate && r.value.channels == f.channels
              && r.value.durationMs == Duration(r.value.frames, f.sampleRate)
              && |r.value.peaks| == BUCKETS
              && forall b :: 0 <= b < BUCKETS ==> IsPeak(data, f, b, r.value.peaks[b]) && r.value.peaks[b] <= 32_768
  {
    hide ScanFrom, IsPeakSoFar, Align, Duration;
    var s := ReadChunks(bytes);
    ScannedFormatIsOk(bytes, 12, Scan(None, None));
    if s.Refused? || s.format.None? || s.data.None? {
      return None;
    }
    var f, data := s.format.value, s.data.value;
    AlignIsPositive(f);
    var frames := |data| / Align(f);
    FramesExist(|data|, Align(f));
    if frames == 0 {
      return None;
    }
    var peaks := Envelope(data, f);
    return Some(AudioPreview(Duration(frames, f.sampleRate), f.sampleRate, f.channels, frames, peaks));
  }

  lemma FramesExist(n: nat, align: nat)
    requires align > 0
    ensures n / align > 0 <==> n >= align
  {
    assert n == (n / align) * align + n % align;
  }
}
