/** The JPEG branch of `ImageInfo.init(input:)`: a walk over the marker
    segments of an ITU-T T.81 stream (sections B.1.1.2 and B.1.1.4) up to
    the first frame header (section B.2.2), which gives the sample
    precision, the number of lines, the number of samples per line and the
    number of image components. */
module JpegScanner {
  import opened Types
  import opened Bytes
  import opened Formats
  import opened IO
  import opened Info

  /** "Look for sync FF byte": the offset just past the first 0xFF at or
      after p, or None when the stream holds no 0xFF from p on. */
  function SyncEnd(data: seq<u8>, p: nat): (r: Option<nat>)
    requires p <= |data|
    ensures r.Some? ==>
      p < r.value <= |data| && data[r.value - 1] == 0xFF &&
      forall k :: p <= k < r.value - 1 ==> data[k] != 0xFF
    ensures r.None? ==> forall k :: p <= k < |data| ==> data[k] != 0xFF
    decreases |data| - p
  {
    if p == |data| then None
    else if data[p] == 0xFF then Some(p + 1)
    else SyncEnd(data, p + 1)
  }

  /** "Eat any extra pad FF bytes": the offset just past the first byte
      other than 0xFF at or after p, or None when only fill bytes remain. */
  function FillEnd(data: seq<u8>, p: nat): (r: Option<nat>)
    requires p <= |data|
    ensures r.Some? ==>
      p < r.value <= |data| && data[r.value - 1] != 0xFF &&
      forall k :: p <= k < r.value - 1 ==> data[k] == 0xFF
    ensures r.None? ==> forall k :: p <= k < |data| ==> data[k] == 0xFF
    decreases |data| - p
  {
    if p == |data| then None
    else if data[p] != 0xFF then Some(p + 1)
    else FillEnd(data, p + 1)
  }

  /** What one turn of the scanning loop does. */
  datatype JpegStep =
    | Next(next: nat)       // a segment was skipped; the loop goes on at `next`
    | Ended                 // the stream ended at a sync or marker byte: the loop breaks
    | Frame(info: ImageInfo) // a frame header was read: the loop breaks
    | Fail(failure: Failure) // the init throws or traps

  /** The marker byte sits at m - 1 and the cursor at m. */
  function SegmentAt(data: seq<u8>, m: nat): (r: JpegStep)
    requires 0 < m <= |data|
    ensures r.Next? ==> m + 2 <= r.next <= |data|
  {
    Pow256Widths();
    var marker := data[m - 1];
    if marker == SOS || marker == EOI then
      Fail(InvalidJPEG)
    else if marker in JpegTag then
      if |data| - m < 2 then Fail(InvalidJPEG)
      else
        var clen := BE(data[m..m + 2]);
        if clen < 8 || |data| - (m + 2) < clen then Fail(InvalidJPEG)
        else
          match MulU8(data[m + 2], data[m + 7])
          case Err(f) => Fail(f)
          case Ok(depth) => Frame(ImageInfo(Jpeg, BE(data[m + 5..m + 7]), BE(data[m + 3..m + 5]), depth, 0))
    else
      if |data| - m < 2 then Fail(InvalidJPEG)
      else
        var clen := BE(data[m..m + 2]);
        if clen < 2 || |data| - (m + 2) < clen then Fail(InvalidJPEG)
        else Next(m + 2 + (clen - 2))
  }

  /** One turn of the loop from offset p: find the sync byte, eat the fill
      bytes, then act on the marker. A turn that goes on has consumed at
      least a sync byte, a marker and a length field, and stays in the stream. */
  function JpegSegmentStep(data: seq<u8>, p: nat): (r: JpegStep)
    requires p <= |data|
    ensures r.Next? ==> p + 4 <= r.next <= |data|
  {
    match SyncEnd(data, p)
    case None => Fail(EndOfStream)
    case Some(s) =>
      if s == |data| then Ended
      else
        match FillEnd(data, s)
        case None => Fail(EndOfStream)
        case Some(m) =>
          if m == |data| then Ended
          else SegmentAt(data, m)
  }

  /** The whole walk from offset p; a loop that breaks without a frame ends
      in `invalidJPEG`. What it reports is a JPEG image without a palette. */
  function JpegScan(data: seq<u8>, p: nat): (r: Result<ImageInfo>)
    requires p <= |data|
    ensures r.Ok? ==> r.value.format == Jpeg && r.value.colors == 0
    decreases |data| - p
  {
    match JpegSegmentStep(data, p)
    case Next(q) => JpegScan(data, q)
    case Ended => Err(InvalidJPEG)
    case Frame(info) => Ok(info)
    case Fail(f) => Err(f)
  }

  /** `while try input.readByte() != 0xff {}` */
  method SeekSync(input: Reader) returns (r: Status)
    requires input.Valid()
    modifies input
    ensures input.Valid()
    ensures SyncEnd(input.data, old(input.pos)).Some? ==>
      r == Done && input.pos == SyncEnd(input.data, old(input.pos)).value
    ensures SyncEnd(input.data, old(input.pos)).None? ==> r == Failed(EndOfStream)
  {
    while true
      invariant input.Valid() && old(input.pos) <= input.pos
      invariant SyncEnd(input.data, input.pos) == SyncEnd(input.data, old(input.pos))
      decreases |input.data| - input.pos
    {
      var b := input.ReadByte();
      if b.Err? {
        return Failed(b.failure);
      }
      if b.value == 0xFF {
        return Done;
      }
    }
  }

  /** `while try input.readByte() == 0xff {}` */
  method SkipFill(input: Reader) returns (r: Status)
    requires input.Valid()
    modifies input
    ensures input.Valid()
    ensures FillEnd(input.data, old(input.pos)).Some? ==>
      r == Done && input.pos == FillEnd(input.data, old(input.pos)).value
    ensures FillEnd(input.data, old(input.pos)).None? ==> r == Failed(EndOfStream)
  {
    while true
      invariant input.Valid() && old(input.pos) <= input.pos
      invariant FillEnd(input.data, input.pos) == FillEnd(input.data, old(input.pos))
      decreases |input.data| - input.pos
    {
      var b := input.ReadByte();
      if b.Err? {
        return Failed(b.failure);
      }
      if b.value != 0xFF {
        return Done;
      }
    }
  }

  /** One turn of the scanning loop. */
  method ScanSegment(input: Reader) returns (step: JpegStep)
    requires input.Valid()
    modifies input
    ensures input.Valid()
    ensures step == JpegSegmentStep(input.data, old(input.pos))
    ensures step.Next? ==> input.pos == step.next
  {
    // look for sync FF byte
    var synced := SeekSync(input);
    if synced.Failed? {
      return Fail(synced.failure);
    }
    if input.IsAtEnd() {
      return Ended;
    }
    // eat any extra pad FF bytes before the marker
    var filled := SkipFill(input);
    if filled.Failed? {
      return Fail(filled.failure);
    }
    if input.IsAtEnd() {
      return Ended;
    }
    var back := input.Skip(-1);
    assert back == Done;
    var read := input.ReadByte();
    var currentByte := read.value;
    step := ReadSegment(input, currentByte);
  }

  /** The rest of a turn, with the marker just read and the cursor past it. */
  method ReadSegment(input: Reader, currentByte: u8) returns (step: JpegStep)
    requires input.Valid() && 0 < input.pos && currentByte == input.data[input.pos - 1]
    modifies input
    ensures input.Valid()
    ensures step == SegmentAt(input.data, old(input.pos))
    ensures step.Next? ==> input.pos == step.next
  {
    Pow256Widths();
    if currentByte == SOS || currentByte == EOI {
      return Fail(InvalidJPEG);
    } else if currentByte in JpegTag {
      if input.Unread() < 2 {
        return Fail(InvalidJPEG);
      }
      var number := ReadJpegNumber(input);
      var clen := number.value;
      if clen < 8 || input.Unread() < clen {
        return Fail(InvalidJPEG);
      }
      // the segment holds at least the six bytes read below
      var read := input.ReadByte();
      var depth := read.value;
      number := ReadJpegNumber(input);
      var height := number.value;
      number := ReadJpegNumber(input);
      var width := number.value;
      read := input.ReadByte();
      var components := read.value;
      var product := MulU8(depth, components);
      if product.Err? {
        return Fail(product.failure);
      }
      return Frame(ImageInfo(Jpeg, width, height, product.value, 0));
    } else {
      if input.Unread() < 2 {
        return Fail(InvalidJPEG);
      }
      var number := ReadJpegNumber(input);
      var clen := number.value;
      if clen < 2 || input.Unread() < clen {
        return Fail(InvalidJPEG);
      }
      var skipped := input.Skip(clen - 2);
      assert skipped == Done;
      return Next(input.pos);
    }
  }

  /** The `.jpeg` branch of `ImageInfo.init(input:)`. */
  method ScanJpeg(input: Reader) returns (res: Result<ImageInfo>)
    requires input.Valid()
    modifies input
    ensures input.Valid()
    ensures res == JpegScan(input.data, old(input.pos))
  {
    var found: Option<ImageInfo> := None;
    ghost var expected := JpegScan(input.data, input.pos);
    while true
      invariant input.Valid()
      invariant JpegScan(input.data, input.pos) == expected
      decreases |input.data| - input.pos
    {
      var step := ScanSegment(input);
      match step
      case Next(_) =>
      case Ended =>
        break;
      case Frame(info) =>
        found := Some(info);
        break;
      case Fail(f) =>
        return Err(f);
    }
    if found.None? {
      return Err(InvalidJPEG);
    }
    return Ok(found.value);
  }

  /** The start-of-scan and end-of-image markers end the walk with
      `invalidJPEG`, wherever they stand. */
  lemma ScanOrEndRejected(data: seq<u8>, m: nat)
    requires 0 < m <= |data| && (data[m - 1] == SOS || data[m - 1] == EOI)
    ensures SegmentAt(data, m) == Fail(InvalidJPEG)
  {
  }

  /** A frame marker: the segment is accepted exactly when its length field
      is present, is at least 8 and fits in what is left, and the product of
      precision and component count fits in a byte; the header then gives
      the height before the width. */
  lemma FrameSegment(data: seq<u8>, m: nat)
    requires 0 < m <= |data| && data[m - 1] in JpegTag
    ensures SegmentAt(data, m).Frame? <==>
      m + 2 <= |data| && 8 <= BE(data[m..m + 2]) <= |data| - (m + 2) && data[m + 2] as int * data[m + 7] as int < 0x100
    ensures SegmentAt(data, m) == Fail(Overflow) <==>
      m + 2 <= |data| && 8 <= BE(data[m..m + 2]) <= |data| - (m + 2) && data[m + 2] as int * data[m + 7] as int >= 0x100
    ensures SegmentAt(data, m).Frame? ==>
      var info := SegmentAt(data, m).info;
      info.format == Jpeg && info.depth == data[m + 2] as int * data[m + 7] as int && info.colors == 0 &&
      info.height == BE(data[m + 3..m + 5]) && info.width == BE(data[m + 5..m + 7])
    ensures !SegmentAt(data, m).Frame? && SegmentAt(data, m) != Fail(Overflow) ==>
      SegmentAt(data, m) == Fail(InvalidJPEG)
  {
    JpegTagIsFrameFamily(data[m - 1]);
  }

  /** Any other marker: its segment is skipped, length field included,
      when the length is at least 2 and fits in what is left; otherwise the
      walk ends with `invalidJPEG`. */
  lemma OtherSegment(data: seq<u8>, m: nat)
    requires 0 < m <= |data| && data[m - 1] !in JpegTag && data[m - 1] != SOS && data[m - 1] != EOI
    ensures SegmentAt(data, m).Next? <==>
      m + 2 <= |data| && 2 <= BE(data[m..m + 2]) <= |data| - (m + 2)
    ensures SegmentAt(data, m).Next? ==> SegmentAt(data, m).next == m + BE(data[m..m + 2])
    ensures !SegmentAt(data, m).Next? ==> SegmentAt(data, m) == Fail(InvalidJPEG)
  {
  }

  /** A frame header at m: its marker at m - 1 follows a 0xFF byte, the
      eight bytes from m lie in the stream, and `info` holds what they say. */
  ghost predicate FrameAt(data: seq<u8>, m: nat, info: ImageInfo)
  {
    2 <= m && m + 8 <= |data| && data[m - 2] == 0xFF && data[m - 1] in JpegTag &&
    8 <= BE(data[m..m + 2]) <= |data| - (m + 2) &&
    info.format == Jpeg && info.depth == data[m + 2] as int * data[m + 7] as int && info.colors == 0 &&
    info.height == BE(data[m + 3..m + 5]) && info.width == BE(data[m + 5..m + 7])
  }

  /** The marker a turn acts on sits right after a 0xFF byte. */
  lemma MarkerFollowsSync(data: seq<u8>, p: nat)
    requires p <= |data| && SyncEnd(data, p).Some? && SyncEnd(data, p).value < |data|
    requires FillEnd(data, SyncEnd(data, p).value).Some?
    ensures var m := FillEnd(data, SyncEnd(data, p).value).value;
      p + 2 <= m && data[m - 2] == 0xFF && data[m - 1] != 0xFF
  {
    var s := SyncEnd(data, p).value;
    var m := FillEnd(data, s).value;
    if m - 2 >= s {
      assert s <= m - 2 < m - 1;
    }
  }

  /** Whatever the walk returns was read from a frame header that follows a
      sync byte somewhere at or after the starting offset. */
  lemma {:induction false} JpegScanFindsFrame(data: seq<u8>, p: nat)
    requires p <= |data|
    ensures JpegScan(data, p).Ok? ==> exists m :: p + 2 <= m && FrameAt(data, m, JpegScan(data, p).value)
    decreases |data| - p
  {
    match JpegSegmentStep(data, p)
    case Next(q) =>
      JpegScanFindsFrame(data, q);
    case Frame(info) =>
      MarkerFollowsSync(data, p);
      var m := FillEnd(data, SyncEnd(data, p).value).value;
      FrameSegment(data, m);
      assert FrameAt(data, m, info);
    case Ended =>
    case Fail(_) =>
  }
}
