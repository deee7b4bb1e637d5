/** The parse result and the pieces both header scanners share. */
module Info {
  import opened Types
  import opened Bytes
  import opened Formats
  import opened IO

  /** `ImageInfo`: the format and the four header fields, all set together. */
  datatype ImageInfo = ImageInfo(format: ImageFormat, width: u32, height: u32, depth: u8, colors: u32)

  /** `depth *= k` on `UInt8`: Swift traps when the product does not fit. */
  function MulU8(depth: u8, k: u8): (r: Result<u8>)
    ensures r.Ok? <==> depth * k < 0x100
    ensures r.Ok? ==> r.value == depth * k
    ensures r.Err? ==> r.failure == Overflow
  {
    if depth * k < 0x100 then Ok(depth * k) else Err(Overflow)
  }

  /** `jpegTag`: the start-of-frame markers whose segment carries the frame
      header (SOF0-SOF3, SOF5-SOF7, SOF9-SOF11, SOF13-SOF15 of Table B.1 of
      ITU-T T.81). */
  const JpegTag: set<u8> := {0xC0, 0xC1, 0xC2, 0xC3, 0xC5, 0xC6, 0xC7, 0xC9, 0xCA, 0xCB, 0xCD, 0xCE, 0xCF}

  /** The JPEG start-of-scan and end-of-image markers. */
  const SOS: u8 := 0xDA
  const EOI: u8 := 0xD9

  /** The set is the whole 0xC0-0xCF family except DHT (C4), JPG (C8) and
      DAC (CC); in particular it holds neither SOS nor EOI, so the order in
      which the scanner tests the two does not matter. */
  lemma JpegTagIsFrameFamily(m: u8)
    ensures m in JpegTag <==> 0xC0 <= m <= 0xCF && m != 0xC4 && m != 0xC8 && m != 0xCC
    ensures SOS !in JpegTag && EOI !in JpegTag
  {
  }

  /** `readJPEGNumber()`: a big-endian UInt16 widened to UInt32. */
  method ReadJpegNumber(input: Reader) returns (r: Result<u32>)
    requires input.Valid()
    modifies input
    ensures input.Valid()
    ensures old(input.pos) + 2 <= |input.data| ==>
      r == Ok(BE(input.data[old(input.pos)..old(input.pos) + 2])) && input.pos == old(input.pos) + 2
    ensures old(input.pos) + 2 > |input.data| ==> r == Err(EndOfStream) && input.pos == old(input.pos)
  {
    var v :- input.ReadU16BE();
    return Ok(v);
  }
}
