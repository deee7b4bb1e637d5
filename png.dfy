/** The PNG branch of `ImageInfo.init(input:)`: a walk over the chunks
    `[length:4][tag:4][data:length][crc:4]` (section 5.3 of the PNG
    specification) that reads the header chunk IHDR and, for an indexed
    image, the palette chunk PLTE. */
module PngScanner {
  import opened Types
  import opened Bytes
  import opened Formats
  import opened IO
  import opened Info

  /** The chunk tags "IHDR" (section 11.2.2) and "PLTE" (section 11.2.3) as big-endian integers. */
  const IHDR: u32 := 0x49484452
  const PLTE: u32 := 0x504C5445

  /** The scanner's locals between two chunks. */
  datatype PngState = PngState(width: Option<u32>, height: Option<u32>, depth: u8, colors: Option<u32>, needPalette: bool)

  /** The locals before the first chunk. */
  const PngStart := PngState(None, None, 0, None, false)

  /** Width and height are set together, and a palette is awaited only once a header was read. */
  predicate Coherent(st: PngState)
  {
    st.width.Some? == st.height.Some? && (st.needPalette ==> st.width.Some?)
  }

  /** The declared data length of the chunk that starts at offset c. */
  function ChunkLength(data: seq<u8>, c: nat): u32
    requires c + 4 <= |data|
  {
    Pow256Widths();
    BE(data[c..c + 4])
  }

  /** The tag of the chunk that starts at offset c. */
  function ChunkTag(data: seq<u8>, c: nat): u32
    requires c + 8 <= |data|
  {
    Pow256Widths();
    BE(data[c + 4..c + 8])
  }

  /** The chunk at c is taken for the header: length 13 and tag IHDR. */
  predicate IsIhdr(data: seq<u8>, c: nat)
    requires c + 8 <= |data|
  {
    ChunkLength(data, c) == 13 && ChunkTag(data, c) == IHDR
  }

  /** The switch on a non-indexed colour type (section 11.2.2): greyscale
      keeps the bit depth, truecolour triples it, greyscale with alpha
      doubles it, truecolour with alpha quadruples it, and any other type
      keeps it; a product that does not fit a byte traps. */
  function ScaleDepth(depth: u8, colorType: u8): (r: Result<u8>)
    ensures colorType != 2 && colorType != 4 && colorType != 6 ==> r == Ok(depth)
    ensures r.Ok? ==> r.value as int in {depth as int, depth as int * 2, depth as int * 3, depth as int * 4}
    ensures r.Err? ==> r == Err(Overflow) && 0x40 <= depth
  {
    match colorType
    case 0 => Ok(depth)
    case 2 => MulU8(depth, 3)
    case 4 => MulU8(depth, 2)
    case 6 => MulU8(depth, 4)
    case _ => Ok(depth)
  }

  /** The fields of an IHDR chunk the scanner keeps (section 11.2.2). */
  datatype Ihdr = Ihdr(width: u32, height: u32, bitDepth: u8, colorType: u8)

  /** The header fields read at offset q, just past the chunk's length and
      tag: width, height, bit depth and colour type, after which the
      compression, filter and interlace bytes and the CRC are skipped. The
      reads fail unless all 17 bytes are there. */
  function IhdrAt(data: seq<u8>, q: nat): (r: Result<Ihdr>)
    ensures r.Ok? <==> q + 17 <= |data|
    ensures r.Err? ==> r.failure == EndOfStream
  {
    if |data| < q + 17 then Err(EndOfStream)
    else
      Pow256Widths();
      Ok(Ihdr(BE(data[q..q + 4]), BE(data[q + 4..q + 8]), data[q + 8], data[q + 9]))
  }

  /** Lines that read an IHDR chunk's fields and skip the rest of it. */
  method ReadIhdr(input: Reader) returns (r: Result<Ihdr>)
    requires input.Valid()
    modifies input
    ensures input.Valid()
    ensures r == IhdrAt(input.data, old(input.pos))
    ensures r.Ok? ==> input.pos == old(input.pos) + 17
  {
    var width :- input.ReadU32BE();
    var height :- input.ReadU32BE();
    var depth :- input.ReadByte();
    var colorType :- input.ReadByte();
    :- input.Skip(1 + 1 + 1 + 4);
    return Ok(Ihdr(width, height, depth, colorType));
  }

  /** What one turn of the scanning loop does with the chunk at p. */
  datatype PngStep =
    | Continue(next: nat, state: PngState)  // the loop goes on at `next`
    | Stop(state: PngState)                 // the loop breaks
    | Abort(failure: Failure)               // the init throws or traps

  /** One turn of the loop, entered with more than 12 bytes unread. Every
      turn that goes on leaves the cursor exactly at the next chunk
      boundary, 12 + length bytes on, and never past the end of the stream. */
  function PngChunkStep(data: seq<u8>, p: nat, st: PngState): (r: PngStep)
    requires p + 12 < |data| && Coherent(st)
    ensures r.Continue? ==> r.next == p + 12 + ChunkLength(data, p) && r.next <= |data|
    ensures !r.Abort? ==> Coherent(r.state)
  {
    var clen := ChunkLength(data, p);
    var tag := ChunkTag(data, p);
    if clen == 13 && tag == IHDR then
      match IhdrAt(data, p + 8)
      case Err(f) => Abort(f)
      case Ok(hdr) =>
        if hdr.colorType == 3 then
          Continue(p + 25, PngState(Some(hdr.width), Some(hdr.height), 24, st.colors, true))
        else
          match ScaleDepth(hdr.bitDepth, hdr.colorType)
          case Err(f) => Abort(f)
          case Ok(d) => Stop(PngState(Some(hdr.width), Some(hdr.height), d, Some(0), st.needPalette))
    else if st.needPalette && tag == PLTE then
      Stop(st.(colors := Some(clen / 3)))
    else if clen + 12 > 0xFFFF_FFFF then
      Abort(Overflow)
    else if clen + 12 > |data| - (p + 8) then
      Abort(InvalidPNG)
    else
      Continue(p + 12 + clen, st)
  }

  /** The checks after the loop: no header means `invalidPNG`, a header
      without its palette count traps on `colors!`, and otherwise all four
      fields are reported together. */
  function PngFinish(st: PngState): (r: Result<ImageInfo>)
    requires Coherent(st)
    ensures r.Ok? <==> st.width.Some? && st.colors.Some?
    ensures st.width.None? ==> r == Err(InvalidPNG)
    ensures st.width.Some? && st.colors.None? ==> r == Err(MissingPalette)
    ensures r.Ok? ==> r.value == ImageInfo(Png, st.width.value, st.height.value, st.depth, st.colors.value)
  {
    if st.width.None? then Err(InvalidPNG)
    else if st.colors.None? then Err(MissingPalette)
    else Ok(ImageInfo(Png, st.width.value, st.height.value, st.depth, st.colors.value))
  }

  /** The whole walk from offset p: it runs while more than 12 bytes are
      unread. What it reports is always a PNG image. */
  function PngScan(data: seq<u8>, p: nat, st: PngState): (r: Result<ImageInfo>)
    requires p <= |data| && Coherent(st)
    ensures r.Ok? ==> r.value.format == Png
    decreases |data| - p
  {
    if |data| - p <= 12 then PngFinish(st)
    else match PngChunkStep(data, p, st)
      case Continue(q, next) => PngScan(data, q, next)
      case Stop(last) => PngFinish(last)
      case Abort(f) => Err(f)
  }

  /** One turn of the scanning loop: read the length and tag of the chunk
      under the cursor and act on it, updating the scanner's locals. */
  method ScanChunk(input: Reader, st: PngState) returns (step: PngStep)
    requires input.Valid() && input.Unread() > 12 && Coherent(st)
    modifies input
    ensures input.Valid()
    ensures step == PngChunkStep(input.data, old(input.pos), st)
    ensures step.Continue? ==> input.pos == step.next
  {
    var width, height, depth, colors, needPalette := st.width, st.height, st.depth, st.colors, st.needPalette;
    // more than 12 bytes are unread, so the length and the tag are there
    var read := input.ReadU32BE();
    var clen := read.value;
    read := input.ReadU32BE();
    var tag := read.value;
    if clen == 13 && tag == IHDR {
      var header := ReadIhdr(input);
      if header.Err? {
        return Abort(header.failure);
      }
      var hdr := header.value;
      width, height, depth := Some(hdr.width), Some(hdr.height), hdr.bitDepth;
      var colorType := hdr.colorType;
      if colorType == 3 {
        // an indexed image always reports three 8-bit samples
        depth := 3 * 8;
        needPalette := true;
        return Continue(input.pos, PngState(width, height, depth, colors, needPalette));
      }
      var scaled := ScaleDepth(depth, colorType);
      if scaled.Err? {
        return Abort(scaled.failure);
      }
      depth := scaled.value;
      colors := Some(0);
      return Stop(PngState(width, height, depth, colors, needPalette));
    } else if needPalette && tag == PLTE {
      colors := Some(clen / 3);
      return Stop(PngState(width, height, depth, colors, needPalette));
    } else if clen + 12 > 0xFFFF_FFFF {
      return Abort(Overflow);
    } else if clen + 12 > input.Unread() {
      return Abort(InvalidPNG);
    } else {
      var skipped := input.Skip(4 + clen);
      assert skipped == Done;
      return Continue(input.pos, st);
    }
  }

  /** The `.png` branch of `ImageInfo.init(input:)`, from the cursor
      `ImageFormat(input:)` left past the signature. */
  method ScanPng(input: Reader) returns (res: Result<ImageInfo>)
    requires input.Valid()
    modifies input
    ensures input.Valid()
    ensures res == PngScan(input.data, old(input.pos), PngStart)
  {
    var state := PngStart;
    ghost var expected := PngScan(input.data, input.pos, PngStart);
    while input.Unread() > 12
      invariant input.Valid() && Coherent(state)
      invariant PngScan(input.data, input.pos, state) == expected
      decreases |input.data| - input.pos
    {
      var step := ScanChunk(input, state);
      match step
      case Continue(_, next) =>
        state := next;
      case Stop(last) =>
        state := last;
        break;
      case Abort(f) =>
        return Err(f);
    }
    if state.width.None? {
      return Err(InvalidPNG);
    }
    if state.colors.None? {
      return Err(MissingPalette);
    }
    return Ok(ImageInfo(Png, state.width.value, state.height.value, state.depth, state.colors.value));
  }

  /** A chunk is taken for the header only when its length is 13 and its
      tag is IHDR; width and height are then the next two big-endian u32
      values, in that order. Any other chunk leaves them as they were. */
  lemma HeaderOnlyFromIhdr(data: seq<u8>, p: nat, st: PngState)
    requires p + 12 < |data| && Coherent(st)
    ensures var r := PngChunkStep(data, p, st);
      !r.Abort? ==>
        if IsIhdr(data, p) then
          p + 25 <= |data| &&
          r.state.width == Some(BE(data[p + 8..p + 12])) &&
          r.state.height == Some(BE(data[p + 12..p + 16]))
        else
          r.state.width == st.width && r.state.height == st.height
  {
  }

  /** The colour type of a header decides the depth: greyscale keeps the
      bit depth, truecolour triples it, greyscale with alpha doubles it,
      truecolour with alpha quadruples it, an unknown type keeps it; each
      of these reports no palette and ends the walk, and a product that
      does not fit a byte traps. An indexed header instead forces depth 24
      and sends the walk on, awaiting a palette. */
  lemma ColourTypeDepth(data: seq<u8>, p: nat, st: PngState)
    requires p + 25 <= |data| && Coherent(st) && IsIhdr(data, p)
    ensures
      var w, h := Some(BE(data[p + 8..p + 12])), Some(BE(data[p + 12..p + 16]));
      var d: int, ct := data[p + 16], data[p + 17];
      var r := PngChunkStep(data, p, st);
      && (ct == 0 ==> r == Stop(PngState(w, h, d, Some(0), st.needPalette)))
      && (ct == 2 ==> r == if 3 * d < 0x100 then Stop(PngState(w, h, 3 * d, Some(0), st.needPalette)) else Abort(Overflow))
      && (ct == 4 ==> r == if 2 * d < 0x100 then Stop(PngState(w, h, 2 * d, Some(0), st.needPalette)) else Abort(Overflow))
      && (ct == 6 ==> r == if 4 * d < 0x100 then Stop(PngState(w, h, 4 * d, Some(0), st.needPalette)) else Abort(Overflow))
      && (ct == 3 ==> r == Continue(p + 25, PngState(w, h, 24, st.colors, true)))
      && (ct != 0 && ct != 2 && ct != 3 && ct != 4 && ct != 6 ==> r == Stop(PngState(w, h, d, Some(0), st.needPalette)))
  {
  }

  /** A chunk that is not a header: a PLTE chunk ends the walk with
      length / 3 palette entries when, and only when, a palette is pending;
      otherwise the chunk is skipped, state untouched, exactly when it and
      the 12 bytes of overhead fit in what is unread after its tag, and is
      rejected with `invalidPNG` when they do not (or traps when the
      32-bit sum length + 12 wraps). */
  lemma OtherChunk(data: seq<u8>, p: nat, st: PngState)
    requires p + 12 < |data| && Coherent(st) && !IsIhdr(data, p)
    ensures PngChunkStep(data, p, st).Stop? <==> st.needPalette && ChunkTag(data, p) == PLTE
    ensures st.needPalette && ChunkTag(data, p) == PLTE ==>
      PngChunkStep(data, p, st).state == st.(colors := Some(ChunkLength(data, p) / 3))
    ensures PngChunkStep(data, p, st).Continue? <==>
      !(st.needPalette && ChunkTag(data, p) == PLTE) &&
      ChunkLength(data, p) + 12 <= 0xFFFF_FFFF && ChunkLength(data, p) + 12 <= |data| - (p + 8)
    ensures PngChunkStep(data, p, st).Continue? ==> PngChunkStep(data, p, st).state == st
    ensures PngChunkStep(data, p, st) == Abort(InvalidPNG) <==>
      !(st.needPalette && ChunkTag(data, p) == PLTE) && |data| - (p + 8) < ChunkLength(data, p) + 12 <= 0xFFFF_FFFF
    ensures PngChunkStep(data, p, st) == Abort(Overflow) <==>
      !(st.needPalette && ChunkTag(data, p) == PLTE) && ChunkLength(data, p) + 12 > 0xFFFF_FFFF
  {
  }

  /** A successful walk reports the width and height it started with or
      those of a header chunk at or after p. */
  lemma {:induction false} PngScanFindsHeader(data: seq<u8>, p: nat, st: PngState)
    requires p <= |data| && Coherent(st)
    ensures var res := PngScan(data, p, st);
      res.Ok? ==>
        (st.width.Some? && res.value.width == st.width.value && res.value.height == st.height.value) ||
        exists c :: p <= c && c + 25 <= |data| && IsIhdr(data, c) &&
          res.value.width == BE(data[c + 8..c + 12]) && res.value.height == BE(data[c + 12..c + 16])
    decreases |data| - p
  {
    var res := PngScan(data, p, st);
    if |data| - p > 12 && res.Ok? {
      HeaderOnlyFromIhdr(data, p, st);
      match PngChunkStep(data, p, st)
      case Continue(q, next) =>
        PngScanFindsHeader(data, q, next);
      case Stop(last) =>
      case Abort(_) =>
    }
  }

  /** Without a header chunk anywhere from p on, a walk that has not seen
      one fails: with `invalidPNG`, or by trapping on a wrapped length. */
  lemma {:induction false} PngScanNeedsHeader(data: seq<u8>, p: nat, st: PngState)
    requires p <= |data| && Coherent(st) && st.width.None?
    requires forall c :: p <= c && c + 8 <= |data| ==> !IsIhdr(data, c)
    ensures PngScan(data, p, st) == Err(InvalidPNG) || PngScan(data, p, st) == Err(Overflow)
    decreases |data| - p
  {
    if |data| - p > 12 {
      OtherChunk(data, p, st);
      match PngChunkStep(data, p, st)
      case Continue(q, next) =>
        PngScanNeedsHeader(data, q, next);
      case Stop(last) =>
      case Abort(_) =>
    }
  }

  /** A successful walk that had no palette count yet reports either no
      palette (a non-indexed header) or, for an indexed image of depth 24,
      a third of the length of a PLTE chunk at or after p. */
  lemma {:induction false} PngScanPalette(data: seq<u8>, p: nat, st: PngState)
    requires p <= |data| && Coherent(st) && st.colors.None?
    requires st.needPalette ==> st.depth == 24
    ensures var res := PngScan(data, p, st);
      res.Ok? ==>
        res.value.colors == 0 ||
        (res.value.depth == 24 &&
         exists c :: p <= c && c + 8 <= |data| && ChunkTag(data, c) == PLTE &&
           res.value.colors == ChunkLength(data, c) / 3)
    decreases |data| - p
  {
    var res := PngScan(data, p, st);
    if |data| - p > 12 && res.Ok? {
      match PngChunkStep(data, p, st)
      case Continue(q, next) =>
        PngScanPalette(data, q, next);
      case Stop(last) =>
        if !IsIhdr(data, p) {
          OtherChunk(data, p, st);
        }
      case Abort(_) =>
    }
  }

  /** An indexed header whose palette never comes: with no further header
      and no PLTE chunk from p on, the walk cannot end well; it traps on
      `colors!`, or fails on a chunk that overruns the stream or whose
      32-bit length sum wraps. */
  lemma {:induction false} PngScanNeedsPalette(data: seq<u8>, p: nat, st: PngState)
    requires p <= |data| && Coherent(st) && st.needPalette && st.colors.None?
    requires forall c :: p <= c && c + 8 <= |data| ==> !IsIhdr(data, c) && ChunkTag(data, c) != PLTE
    ensures PngScan(data, p, st) in {Err(MissingPalette), Err(InvalidPNG), Err(Overflow)}
    decreases |data| - p
  {
    if |data| - p > 12 {
      OtherChunk(data, p, st);
      match PngChunkStep(data, p, st)
      case Continue(q, next) =>
        PngScanNeedsPalette(data, q, next);
      case Stop(last) =>
      case Abort(_) =>
    }
  }
}
