# SimpleImageInfo header reader, modelled in Dafny

SimpleImageInfo reads the leading bytes of an image stream and reports:

- the image format (JPEG or PNG);
- the pixel width and height;
- the colour depth in bits per pixel;
- the number of palette colours.

The stream is a seekable byte source.

This project models the two core files:

- `ImageFormat.swift`:
  - the format enum;
  - signature detection by rewinding and reading a big-endian header;
  - `headerLength`;
  - `mimeType`.
- `ImageInfo.swift`:
  - the PNG chunk walk (IHDR and PLTE);
  - the JPEG marker walk up to the first start-of-frame segment;
  - `unreadBytesCount`, `readJPEGNumber` and the `jpegTag` set.

Modules, one file each:

- `Types` (`types.dfy`): the failure kinds and the `Result`/`Status` wrappers used with `:-`.
- `Bytes` (`bytes.dfy`): fixed-width unsigned integers and big-endian decoding (`BE`) with its inverse (`ToBE`).
- `IO` (`reader.dfy`): the `Read & Seek` byte source, as a class `Reader`.
  - The stream is a `const data` and the cursor is a `var pos`.
  - Reads, skips and seeks have exact pre/post states.
- `Formats` (`image_format.dfy`): `ImageFormat` and detection.
  - The method `Match` and the method `DetectFormat` are proved equal to the functions `Matches` and `FormatOf`.
- `Info` (`info.dfy`): the `ImageInfo` record, the checked `UInt8` multiplication, `jpegTag` and `readJPEGNumber`.
- `PngScanner` (`png.dfy`): the PNG branch of `ImageInfo.init(input:)`.
  - The method `ScanPng` runs the source's `while` loop, one chunk per turn (`ScanChunk`).
  - It is proved equal to the recursive specification `PngScan`.
- `JpegScanner` (`jpeg.dfy`): the JPEG branch.
  - The method `ScanJpeg` runs the marker loop, one segment per turn (`ScanSegment`).
  - It is proved equal to `JpegScan`.
- `Parser` (`image_info.dfy`): `ImageInfo.init(input: inout T)`.
  - The method `ParseImageInfo` is proved equal to `ImageInfoOf`.
  - The module also holds read-back lemmas: a stream laid out as an encoder writes it yields exactly the fields written.

Every Swift trap in the core is a failure of its own:

- `Overflow`:
  - `depth *= k` on `UInt8` (ImageInfo.swift:72, 75, 78, 135);
  - `clen + 12` on `UInt32` (ImageInfo.swift:88).
- `MissingPalette`: `colors!` when an indexed PNG has no palette chunk (ImageInfo.swift:100).
- `NoMatchingFormat`: the force-unwrap when no format matches (ImageFormat.swift:13).

The two thrown parse errors are `InvalidPNG` and `InvalidJPEG`. Every error the byte source can throw is collapsed into `EndOfStream`.

Behaviour the model takes from the code, where a reader might expect otherwise:

- A stream shorter than a signature fails detection with a read error, not with "no format". `match` reads before it compares, and a failed read ends `first(where:)` at once.
- A truncated IHDR chunk fails with a read error, not with `invalidPNG`. The loop only checks that 13 bytes are unread, then reads 25.
- In the JPEG walk, a stream that ends inside the sync loop or the fill loop fails with a read error, because `readByte` throws. `invalidJPEG` comes only from the `isAtEnd` checks, when the 0xFF byte or the marker is the last byte, from a start-of-scan (0xDA) or end-of-image (0xD9) marker, and from the length checks.
- A PNG header chunk with colour type 3 does not end the walk. The walk goes on until a PLTE chunk. A non-indexed header ends it at once.
- The JPEG length checks (ImageInfo.swift:129, 144) compare the length field with what is unread after the two bytes of the field itself, although the length counts those two bytes. A segment must therefore be followed by at least two more bytes: a frame segment that ends exactly at the end of the stream gives `invalidJPEG`.
- In the same way, the PNG check at ImageInfo.swift:88 compares length + 12 with what is unread after the 8-byte length and tag. A skipped chunk must be followed by at least 8 more bytes, or the walk gives `invalidPNG`.

## Model

| member | source | states |
|---|---|---|
| Bytes.BE | Sources/SimpleImageInfo/ImageFormat.swift:29 | a big-endian read of n bytes is below 256^n |
| Bytes.ToBE | Sources/SimpleImageInfo/ImageFormat.swift:29-33 | every value below 256^n has an n-byte big-endian spelling that reads back as that value |
| Bytes.ToBEOfBE | Sources/SimpleImageInfo/ImageFormat.swift:29-33 | spelling a read value again gives back the bytes read, so the big-endian read loses nothing |
| Bytes.BEInjective | Sources/SimpleImageInfo/ImageFormat.swift:29-33 | two reads of the same width are equal iff the bytes are equal |
| Bytes.BEMatches | Sources/SimpleImageInfo/ImageFormat.swift:30 | comparing a read integer with a constant is comparing the bytes with the constant's spelling |
| IO.Reader.Unread | Sources/SimpleImageInfo/ImageInfo.swift:14-18 | cursor plus unread count is the stream length |
| IO.Reader.IsAtEnd | Sources/SimpleImageInfo/ImageInfo.swift:111-117 | at end iff nothing is unread |
| IO.Reader.ReadByte | Sources/SimpleImageInfo/ImageInfo.swift:121 | yields the byte under the cursor and advances by one, or fails at the end with the cursor unchanged |
| IO.Reader.ReadBE | Sources/SimpleImageInfo/ImageInfo.swift:49-50 | yields the big-endian value of the next width bytes and advances by width, or fails without moving when fewer remain |
| IO.Reader.ReadU16BE | Sources/SimpleImageInfo/ImageFormat.swift:29 | the same for two bytes |
| IO.Reader.ReadU32BE | Sources/SimpleImageInfo/ImageInfo.swift:53-54 | the same for four bytes |
| IO.Reader.ReadU64BE | Sources/SimpleImageInfo/ImageFormat.swift:32 | the same for eight bytes |
| IO.Reader.Skip | Sources/SimpleImageInfo/ImageInfo.swift:120 | moves the cursor by a signed amount when the target is inside the stream, else fails and leaves it |
| IO.Reader.Seek | Sources/SimpleImageInfo/ImageFormat.swift:26 | puts the cursor at an absolute offset inside the stream |
| Formats.MimeType | Sources/SimpleImageInfo/ImageFormat.swift:37-39 | "image/" followed by the case's raw value |
| Formats.MimeTypeInjective | Sources/SimpleImageInfo/ImageFormat.swift:3-6 | two formats have the same MIME type iff they are the same format |
| Formats.SignatureBytes | Sources/SimpleImageInfo/ImageFormat.swift:28-33 | the signature bytes of each format are at least two long, and only the JPEG one opens with 0xFF, so no stream matches both |
| Formats.Signature | Sources/SimpleImageInfo/ImageFormat.swift:30-33 | the constant each format compares with, 0xFFD8 or 0x89504E470D0A1A0A, is the big-endian reading of its signature bytes |
| Formats.HeaderLength | Sources/SimpleImageInfo/ImageFormat.swift:17-23 | 2 for JPEG and 8 for PNG, wide enough for the signature compared |
| Formats.SignatureSpelling | Sources/SimpleImageInfo/ImageFormat.swift:28-33 | 0xFFD8 and 0x89504E470D0A1A0A are the big-endian spellings FF D8 and 89 50 4E 47 0D 0A 1A 0A |
| Formats.Matches | Sources/SimpleImageInfo/ImageFormat.swift:25-35 | a read error iff the stream is shorter than the header; true iff the header bytes are the signature |
| Formats.Match | Sources/SimpleImageInfo/ImageFormat.swift:25-35 | rewinds and reads the header, answering as `Matches` on the whole stream, so the earlier cursor plays no part; on success the cursor is at the header length |
| Formats.FirstMatch | Sources/SimpleImageInfo/ImageFormat.swift:10-13 | a format it returns is one of the cases tried and matches the stream; a failure is either no format or a read error |
| Formats.AllMissCons | Sources/SimpleImageInfo/ImageFormat.swift:10-13 | every case of a list misses iff the first misses and every case of the rest misses |
| Formats.FirstMatchIsFirst | Sources/SimpleImageInfo/ImageFormat.swift:10-13 | no format iff every case answered false; a format found is the first case to answer true after only false answers; a read error is the first case's error after only false answers |
| Formats.FormatOf | Sources/SimpleImageInfo/ImageFormat.swift:9-14 | a detected format matches the stream; PNG is detected only when JPEG did not match; a failure is either no format or a read error |
| Formats.DetectFormat | Sources/SimpleImageInfo/ImageFormat.swift:9-15 | tries the cases in declaration order and answers as `FormatOf`, leaving the cursor just past the detected signature |
| Formats.FormatOfLeadingBytes | Sources/SimpleImageInfo/ImageFormat.swift:5-33 | JPEG iff the stream starts FF D8; PNG iff it does not and starts with the PNG signature; no format iff it has 8 bytes and neither; otherwise a read error |
| Formats.FormatOfDependsOnHeader | Sources/SimpleImageInfo/ImageFormat.swift:26 | streams that agree on their first eight bytes are detected alike |
| Info.MulU8 | Sources/SimpleImageInfo/ImageInfo.swift:72-78 | the product when it fits in a byte, an overflow failure iff it does not |
| Info.JpegTagIsFrameFamily | Sources/SimpleImageInfo/ImageInfo.swift:161 | the set is 0xC0-0xCF minus C4, C8 and CC, and holds neither SOS nor EOI |
| Info.ReadJpegNumber | Sources/SimpleImageInfo/ImageInfo.swift:20-24 | a two-byte big-endian value, advancing the cursor by two, or a read failure |
| PngScanner.IhdrAt | Sources/SimpleImageInfo/ImageInfo.swift:53-57 | the header fields are there iff 17 bytes remain; otherwise a read error |
| PngScanner.ReadIhdr | Sources/SimpleImageInfo/ImageInfo.swift:53-57 | reads width, height, bit depth and colour type, skips 7 bytes, and answers as `IhdrAt` with the cursor 17 bytes on |
| PngScanner.PngChunkStep | Sources/SimpleImageInfo/ImageInfo.swift:49-92 | a turn that goes on moves exactly 12 + length bytes and stays inside the stream; width and height stay set together |
| PngScanner.PngFinish | Sources/SimpleImageInfo/ImageInfo.swift:94-100 | `invalidPNG` without a width; a trap without colours; otherwise the four fields as found |
| PngScanner.PngScan | Sources/SimpleImageInfo/ImageInfo.swift:48-100 | what the walk reports is a PNG image |
| PngScanner.ScanChunk | Sources/SimpleImageInfo/ImageInfo.swift:49-92 | one turn of the loop does what `PngChunkStep` says, leaving the cursor at the next chunk when it goes on |
| PngScanner.ScanPng | Sources/SimpleImageInfo/ImageInfo.swift:41-100 | the loop and the checks after it answer as `PngScan` from the cursor |
| PngScanner.ScaleDepth | Sources/SimpleImageInfo/ImageInfo.swift:66-80 | colour types other than 2, 4 and 6 keep the depth; the result is one to four times the depth; an overflow trap needs a depth of at least 64 |
| PngScanner.HeaderOnlyFromIhdr | Sources/SimpleImageInfo/ImageInfo.swift:49-55 | a chunk sets width and height iff its length is 13 and its tag IHDR, to the next two big-endian words in that order |
| PngScanner.ColourTypeDepth | Sources/SimpleImageInfo/ImageInfo.swift:58-83 | depth for colour types 0, 2, 4 and 6 is ×1, ×3, ×2 and ×4, trapping on overflow, with no palette; type 3 forces 24 and awaits a palette; any other type keeps the depth |
| PngScanner.OtherChunk | Sources/SimpleImageInfo/ImageInfo.swift:84-92 | PLTE stops the walk with length / 3 colours iff a palette is pending; otherwise the chunk is skipped iff length + 12 fits in what is unread, else `invalidPNG`, or a trap when the 32-bit sum wraps |
| PngScanner.PngScanFindsHeader | Sources/SimpleImageInfo/ImageInfo.swift:48-55 | a successful walk reports the width and height of some IHDR chunk it passed |
| PngScanner.PngScanNeedsHeader | Sources/SimpleImageInfo/ImageInfo.swift:48-95 | without an IHDR chunk the walk fails with `invalidPNG` or an overflow trap |
| PngScanner.PngScanNeedsPalette | Sources/SimpleImageInfo/ImageInfo.swift:58-100 | once an indexed header has been read, a walk that meets no further IHDR or PLTE chunk ends in the `colors!` trap, `invalidPNG` or an overflow trap, never in a result |
| PngScanner.PngScanPalette | Sources/SimpleImageInfo/ImageInfo.swift:58-100 | a successful walk reports 0 colours, or depth 24 and a third of some PLTE chunk's length |
| JpegScanner.SyncEnd | Sources/SimpleImageInfo/ImageInfo.swift:108-110 | the offset just past the first 0xFF byte, or none when there is none |
| JpegScanner.FillEnd | Sources/SimpleImageInfo/ImageInfo.swift:114-116 | the offset just past the first byte that is not 0xFF, or none when only 0xFF bytes remain |
| JpegScanner.SegmentAt | Sources/SimpleImageInfo/ImageInfo.swift:121-149 | a segment that is skipped moves past its length field and stays in the stream |
| JpegScanner.JpegSegmentStep | Sources/SimpleImageInfo/ImageInfo.swift:108-149 | a turn that goes on moves at least four bytes and stays in the stream |
| JpegScanner.JpegScan | Sources/SimpleImageInfo/ImageInfo.swift:107-157 | what the walk reports is a JPEG image with no palette |
| JpegScanner.SeekSync | Sources/SimpleImageInfo/ImageInfo.swift:109-110 | leaves the cursor just past the first 0xFF, or fails with a read error at the end |
| JpegScanner.SkipFill | Sources/SimpleImageInfo/ImageInfo.swift:115-116 | leaves the cursor just past the first byte that is not 0xFF, or fails with a read error at the end |
| JpegScanner.ScanSegment | Sources/SimpleImageInfo/ImageInfo.swift:107-149 | one turn of the loop does what `JpegSegmentStep` says, leaving the cursor at the next offset when it goes on |
| JpegScanner.ReadSegment | Sources/SimpleImageInfo/ImageInfo.swift:121-149 | the marker handling does what `SegmentAt` says |
| JpegScanner.ScanJpeg | Sources/SimpleImageInfo/ImageInfo.swift:101-157 | the loop and the check after it answer as `JpegScan` from the cursor |
| JpegScanner.ScanOrEndRejected | Sources/SimpleImageInfo/ImageInfo.swift:122-123 | a start-of-scan or end-of-image marker gives `invalidJPEG` |
| JpegScanner.FrameSegment | Sources/SimpleImageInfo/ImageInfo.swift:124-138 | a frame marker yields the frame iff the length field is there, is at least 8, fits in what is unread, and precision × components fits in a byte; the result is height then width, depth = precision × components, colours 0 |
| JpegScanner.OtherSegment | Sources/SimpleImageInfo/ImageInfo.swift:139-148 | any other marker's segment is skipped to marker + length iff the length is at least 2 and fits in what is unread, else `invalidJPEG` |
| JpegScanner.MarkerFollowsSync | Sources/SimpleImageInfo/ImageInfo.swift:108-121 | the marker a turn acts on follows a 0xFF byte and is not 0xFF itself |
| JpegScanner.JpegScanFindsFrame | Sources/SimpleImageInfo/ImageInfo.swift:107-157 | a successful walk reports the fields of a frame header behind a 0xFF byte at or after where it started |
| Parser.ImageInfoOf | Sources/SimpleImageInfo/ImageInfo.swift:38-40 | a detection failure is passed on; a result's format is the detected format |
| Parser.ParseImageInfo | Sources/SimpleImageInfo/ImageInfo.swift:38-159 | detection and then the branch for the format answer as `ImageInfoOf` on the whole stream |
| Parser.IhdrChunkReadBack | Sources/SimpleImageInfo/ImageInfo.swift:49-56 | a header chunk written with given fields is taken for the header and read back field for field |
| Parser.PngSignatureDetected | Sources/SimpleImageInfo/ImageFormat.swift:10-33 | a stream opening with the PNG signature is detected as PNG |
| Parser.PngScanAtHeader | Sources/SimpleImageInfo/ImageInfo.swift:48-100 | a walk starting at a non-indexed header stops there with the written width, height, scaled depth and 0 colours |
| Parser.PngHeaderRoundTrip | Sources/SimpleImageInfo/ImageInfo.swift:38-100 | signature + non-indexed header parses to the written width and height, the scaled depth and 0 colours |
| Parser.PngScanAtPalette | Sources/SimpleImageInfo/ImageInfo.swift:58-100 | a walk starting at an indexed header followed by PLTE stops there with depth 24 and length / 3 colours |
| Parser.IndexedPngRoundTrip | Sources/SimpleImageInfo/ImageInfo.swift:38-100 | signature + indexed header + PLTE chunk parses to the written width and height, depth 24 and length / 3 colours |
| Parser.JpegScanAtFrame | Sources/SimpleImageInfo/ImageInfo.swift:107-157 | a walk starting at a frame header reports the written width, height and precision × components |
| Parser.JpegFrameRoundTrip | Sources/SimpleImageInfo/ImageInfo.swift:38-157 | FF D8 + frame header parses to the written width and height, precision × components and 0 colours |

## Left out

- The internals of IOModule are not part of this model. `Reader` stands in for its `Read & Seek` capability over an in-memory stream.
  - Its errors all become `EndOfStream`.
  - A skip or seek to a target outside the stream is assumed to fail and leave the cursor where it was.
  - `streamLength`, `currentOffset` and `isAtEnd` are assumed never to fail.
  - The default byte order of `readInteger()`, which the PNG walk and `readJPEGNumber` use (ImageInfo.swift:22, 49-50, 53-54), is taken to be big-endian. The tag constants 0x49484452 and 0x504C5445 only spell IHDR and PLTE in that order.
- The `init<T: Read & Seek & AnyObject>(input:)` wrapper (ImageInfo.swift:33-36) is left out. It only passes a reference to the `inout` initializer, and aliasing of class references is not modelled.
- The commented-out GIF case and the commented-out `preconditionOrThrow` are not code and are not modelled.
- Chunk CRCs, chunk payloads and JPEG segment payloads are never checked or interpreted by the source, so the model skips them too.
- `Package.swift` and the build configuration are not part of this model.
- JpegScanner.JpegScan: its own contract states only that the result is a JPEG image with no palette. The content of a successful result is stated by `JpegScanFindsFrame`, `FrameSegment` and `JpegScanAtFrame`.
- PngScanner.PngScan: its own contract states only that the result is a PNG image. The fields are stated by `PngScanFindsHeader`, `PngScanPalette`, `ColourTypeDepth` and `PngScanAtHeader`.
