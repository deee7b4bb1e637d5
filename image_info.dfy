/** `ImageInfo.init(input:)`: detect the format, then read the header
    fields with the scanner for that format. */
module Parser {
  import opened Types
  import opened Bytes
  import opened Formats
  import opened IO
  import opened Info
  import opened PngScanner
  import opened JpegScanner

  /** What the init gives for a whole stream: the detection failure, or the
      result of the walk that starts just past the signature. */
  function ImageInfoOf(data: seq<u8>): (r: Result<ImageInfo>)
    ensures FormatOf(data).Err? ==> r == Err(FormatOf(data).failure)
    ensures r.Ok? ==> FormatOf(data) == Ok(r.value.format)
  {
    match FormatOf(data)
    case Err(f) => Err(f)
    case Ok(Png) => PngScan(data, HeaderLength(Png), PngStart)
    case Ok(Jpeg) => JpegScan(data, HeaderLength(Jpeg))
  }

  /** `ImageInfo.init(input: inout T)` */
  method ParseImageInfo(input: Reader) returns (res: Result<ImageInfo>)
    requires input.Valid()
    modifies input
    ensures input.Valid()
    ensures res == ImageInfoOf(input.data)
  {
    var format :- DetectFormat(input);
    match format
    case Png =>
      res := ScanPng(input);
    case Jpeg =>
      res := ScanJpeg(input);
  }

  /** A four-byte big-endian field, digit by digit. */
  lemma BE4(s: seq<u8>)
    requires |s| == 4
    ensures BE(s) == ((s[0] as int * 256 + s[1] as int) * 256 + s[2] as int) * 256 + s[3] as int
  {
    assert BE(s[..1]) == s[0] as int by { assert s[..1][..0] == []; }
    assert BE(s[..2]) == s[0] as int * 256 + s[1] as int by { assert s[..2][..1] == s[..1]; }
    assert BE(s[..3]) == (s[0] as int * 256 + s[1] as int) * 256 + s[2] as int by { assert s[..3][..2] == s[..2]; }
    assert s[..4] == s;
  }

  /** The length 13 and the tag "IHDR" as a header chunk opens with them. */
  const IhdrHead: seq<u8> := [0, 0, 0, 13, 0x49, 0x48, 0x44, 0x52]

  /** The tag "PLTE" as a palette chunk carries it. */
  const PlteTag: seq<u8> := [0x50, 0x4C, 0x54, 0x45]

  /** The spelled-out bytes are the values the scanner compares with. */
  lemma TagSpelling()
    ensures BE(IhdrHead[..4]) == 13 && BE(IhdrHead[4..]) == IHDR && BE(PlteTag) == PLTE
  {
    BE4(IhdrHead[..4]);
    BE4(IhdrHead[4..]);
    BE4(PlteTag);
  }

  /** A header chunk as an encoder writes it: length, tag, the four-byte
      width and height, bit depth, colour type, zero compression, filter
      and interlace bytes, and a zero CRC. */
  function IhdrChunk(width: seq<u8>, height: seq<u8>, bitDepth: u8, colorType: u8): (s: seq<u8>)
    requires |width| == 4 && |height| == 4
    ensures |s| == 25
  {
    IhdrHead + width + height + [bitDepth, colorType, 0, 0, 0, 0, 0, 0, 0]
  }

  /** An eight-byte head, two four-byte fields and a tail, laid end to end,
      are found again at offsets 0, 8, 12 and 16. */
  lemma ChunkLayout(head: seq<u8>, a: seq<u8>, b: seq<u8>, tail: seq<u8>)
    requires |head| == 8 && |a| == 4 && |b| == 4
    ensures var s := head + a + b + tail;
      s[..8] == head && s[8..12] == a && s[12..16] == b && s[16..] == tail
  {
    var s := head + a + b + tail;
    assert s[..16] == head + a + b;
    assert s[..12] == head + a by { assert s[..12] == s[..16][..12]; }
  }

  /** A slice of a slice is a slice of the whole. */
  lemma SliceOfSlice(s: seq<u8>, p: nat, n: nat, i: nat, j: nat)
    requires p + n <= |s| && i <= j <= n
    ensures s[p..p + n][i..j] == s[p + i..p + j]
  {
    var inner, outer := s[p..p + n][i..j], s[p + i..p + j];
    assert forall k :: 0 <= k < |inner| ==> inner[k] == outer[k];
  }

  /** A header chunk at p read back: the scanner takes it for the header
      and finds the fields that were written. */
  lemma IhdrChunkReadBack(data: seq<u8>, p: nat, width: seq<u8>, height: seq<u8>, bitDepth: u8, colorType: u8)
    requires |width| == 4 && |height| == 4
    requires p + 25 <= |data| && data[p..p + 25] == IhdrChunk(width, height, bitDepth, colorType)
    ensures IsIhdr(data, p)
    ensures data[p + 8..p + 12] == width && data[p + 12..p + 16] == height
    ensures data[p + 16] == bitDepth && data[p + 17] == colorType
  {
    var c := data[p..p + 25];
    var rest: seq<u8> := [bitDepth, colorType, 0, 0, 0, 0, 0, 0, 0];
    ChunkLayout(IhdrHead, width, height, rest);
    TagSpelling();
    assert data[p..p + 4] == IhdrHead[..4] by {
      SliceOfSlice(data, p, 25, 0, 4);
      assert c[..8][..4] == c[0..4];
    }
    assert data[p + 4..p + 8] == IhdrHead[4..] by {
      SliceOfSlice(data, p, 25, 4, 8);
      assert c[..8][4..] == c[4..8];
    }
    SliceOfSlice(data, p, 25, 8, 12);
    SliceOfSlice(data, p, 25, 12, 16);
    assert data[p + 16] == c[16] == rest[0];
    assert data[p + 17] == c[17] == rest[1];
  }

  /** A stream that opens with the PNG signature is detected as PNG. */
  lemma PngSignatureDetected(data: seq<u8>)
    requires |data| >= 8 && data[..8] == SignatureBytes(Png)
    ensures FormatOf(data) == Ok(Png)
  {
    assert data[..2] != SignatureBytes(Jpeg) by { assert data[0] == data[..8][0]; }
    FormatOfLeadingBytes(data);
  }

  /** A walk that starts at a non-indexed header chunk stops there. */
  lemma PngScanAtHeader(data: seq<u8>, width: seq<u8>, height: seq<u8>, bitDepth: u8, colorType: u8)
    requires |width| == 4 && |height| == 4
    requires |data| >= 33 && data[8..33] == IhdrChunk(width, height, bitDepth, colorType)
    requires colorType != 3 && ScaleDepth(bitDepth, colorType).Ok?
    ensures var r := PngScan(data, 8, PngStart);
      r.Ok? && r.value.width == BE(width) && r.value.height == BE(height) &&
      r.value.depth == ScaleDepth(bitDepth, colorType).value && r.value.colors == 0
  {
    Pow256Widths();
    var st := PngState(Some(BE(width)), Some(BE(height)), ScaleDepth(bitDepth, colorType).value, Some(0), false);
    assert PngChunkStep(data, 8, PngStart) == Stop(st) by {
      IhdrChunkReadBack(data, 8, width, height, bitDepth, colorType);
      ColourTypeDepth(data, 8, PngStart);
    }
  }

  /** A PNG stream whose first chunk is a non-indexed header reports that
      header's width and height, the depth its colour type gives, and no
      palette, whatever follows it. */
  lemma PngHeaderRoundTrip(data: seq<u8>, width: seq<u8>, height: seq<u8>, bitDepth: u8, colorType: u8)
    requires |width| == 4 && |height| == 4
    requires |data| >= 33 && data[..8] == SignatureBytes(Png) && data[8..33] == IhdrChunk(width, height, bitDepth, colorType)
    requires colorType != 3 && ScaleDepth(bitDepth, colorType).Ok?
    ensures var r := ImageInfoOf(data);
      r.Ok? && r.value.format == Png && r.value.width == BE(width) && r.value.height == BE(height) &&
      r.value.depth == ScaleDepth(bitDepth, colorType).value && r.value.colors == 0
  {
    PngSignatureDetected(data);
    PngScanAtHeader(data, width, height, bitDepth, colorType);
  }

  /** A walk that starts at an indexed header chunk followed by a palette
      chunk stops at the palette. */
  lemma PngScanAtPalette(data: seq<u8>, width: seq<u8>, height: seq<u8>, bitDepth: u8)
    requires |width| == 4 && |height| == 4
    requires |data| >= 46 && data[8..33] == IhdrChunk(width, height, bitDepth, 3) && data[37..41] == PlteTag
    ensures var r := PngScan(data, 8, PngStart);
      r.Ok? && r.value.width == BE(width) && r.value.height == BE(height) &&
      r.value.depth == 24 && r.value.colors == BE(data[33..37]) / 3
  {
    Pow256Widths();
    var st := PngState(Some(BE(width)), Some(BE(height)), 24, None, true);
    assert PngChunkStep(data, 8, PngStart) == Continue(33, st) by {
      IhdrChunkReadBack(data, 8, width, height, bitDepth, 3);
      ColourTypeDepth(data, 8, PngStart);
    }
    assert PngChunkStep(data, 33, st) == Stop(st.(colors := Some(BE(data[33..37]) / 3))) by {
      TagSpelling();
      OtherChunk(data, 33, st);
    }
    assert PngScan(data, 8, PngStart) == PngScan(data, 33, st);
  }

  /** An indexed PNG stream whose header is followed by a palette chunk
      reports depth 24 and a third of the palette's length as its colour
      count; the palette's payload is not read. */
  lemma IndexedPngRoundTrip(data: seq<u8>, width: seq<u8>, height: seq<u8>, bitDepth: u8)
    requires |width| == 4 && |height| == 4
    requires |data| >= 46 && data[..8] == SignatureBytes(Png) && data[8..33] == IhdrChunk(width, height, bitDepth, 3)
    requires data[37..41] == PlteTag
    ensures var r := ImageInfoOf(data);
      r.Ok? && r.value.format == Png && r.value.width == BE(width) && r.value.height == BE(height) &&
      r.value.depth == 24 && r.value.colors == BE(data[33..37]) / 3
  {
    PngSignatureDetected(data);
    PngScanAtPalette(data, width, height, bitDepth);
  }

  /** A JPEG start-of-frame segment as an encoder writes it: sync byte,
      marker, length, sample precision, number of lines, samples per line
      and number of components (section B.2.2 of ITU-T T.81), without the
      per-component entries. */
  function FrameHeader(marker: u8, length: seq<u8>, precision: u8, height: seq<u8>, width: seq<u8>, components: u8): (s: seq<u8>)
    requires |length| == 2 && |height| == 2 && |width| == 2
    ensures |s| == 10
  {
    [0xFF, marker] + length + [precision] + height + width + [components]
  }

  /** The fields of a frame header at p, at the offsets it was written with. */
  lemma FrameHeaderReadBack(data: seq<u8>, p: nat, marker: u8, length: seq<u8>, precision: u8, height: seq<u8>, width: seq<u8>, components: u8)
    requires |length| == 2 && |height| == 2 && |width| == 2
    requires p + 10 <= |data| && data[p..p + 10] == FrameHeader(marker, length, precision, height, width, components)
    ensures data[p] == 0xFF && data[p + 1] == marker && data[p + 2..p + 4] == length && data[p + 4] == precision
    ensures data[p + 5..p + 7] == height && data[p + 7..p + 9] == width && data[p + 9] == components
  {
    var f := FrameHeader(marker, length, precision, height, width, components);
    assert f[2..4] == length && f[5..7] == height && f[7..9] == width;
    SliceOfSlice(data, p, 10, 2, 4);
    SliceOfSlice(data, p, 10, 5, 7);
    SliceOfSlice(data, p, 10, 7, 9);
    assert data[p] == f[0] && data[p + 1] == f[1] && data[p + 4] == f[4] && data[p + 9] == f[9];
  }

  /** A walk that starts at a frame header reports that frame. */
  lemma JpegScanAtFrame(data: seq<u8>, marker: u8, length: seq<u8>, precision: u8, height: seq<u8>, width: seq<u8>, components: u8)
    requires |length| == 2 && |height| == 2 && |width| == 2
    requires |data| >= 12 && data[2..12] == FrameHeader(marker, length, precision, height, width, components)
    requires marker in JpegTag && 8 <= BE(length) <= |data| - 6 && precision as int * components as int < 0x100
    ensures var r := JpegScan(data, 2);
      r.Ok? && r.value.width == BE(width) && r.value.height == BE(height) &&
      r.value.depth == precision as int * components as int
  {
    FrameHeaderReadBack(data, 2, marker, length, precision, height, width, components);
    assert SyncEnd(data, 2) == Some(3);
    assert FillEnd(data, 3) == Some(4) by { JpegTagIsFrameFamily(marker); }
    var step := SegmentAt(data, 4);
    assert step.Frame? && step.info.width == BE(width) && step.info.height == BE(height) by {
      FrameSegment(data, 4);
    }
    assert JpegScan(data, 2) == Ok(step.info);
  }

  /** A JPEG stream that opens with a frame header whose length fits in the
      stream reports that frame's width, height and precision times
      component count, with no palette. */
  lemma JpegFrameRoundTrip(data: seq<u8>, marker: u8, length: seq<u8>, precision: u8, height: seq<u8>, width: seq<u8>, components: u8)
    requires |length| == 2 && |height| == 2 && |width| == 2
    requires |data| >= 12 && data[..2] == SignatureBytes(Jpeg)
    requires data[2..12] == FrameHeader(marker, length, precision, height, width, components)
    requires marker in JpegTag && 8 <= BE(length) <= |data| - 6 && precision as int * components as int < 0x100
    ensures var r := ImageInfoOf(data);
      r.Ok? && r.value.format == Jpeg && r.value.width == BE(width) && r.value.height == BE(height) &&
      r.value.depth == precision as int * components as int && r.value.colors == 0
  {
    FormatOfLeadingBytes(data);
    JpegScanAtFrame(data, marker, length, precision, height, width, components);
  }
}
