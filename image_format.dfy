/** `ImageFormat`: the closed set of recognised encodings and how a stream's
    leading bytes select one of them. */
module Formats {
  import opened Types
  import opened Bytes
  import opened IO

  datatype ImageFormat = Jpeg | Png

  /** `allCases`, in declaration order: JPEG is tried before PNG. */
  const AllCases: seq<ImageFormat> := [Jpeg, Png]

  /** The case name (`rawValue`). */
  function RawValue(f: ImageFormat): string
  {
    match f
    case Jpeg => "jpeg"
    case Png => "png"
  }

  /** `mimeType`: "image/" followed by the case name. */
  function MimeType(f: ImageFormat): (m: string)
    ensures |m| > 6 && m[..6] == "image/" && m[6..] == RawValue(f)
  {
    "image/" + RawValue(f)
  }

  /** Distinct formats have distinct MIME types. */
  lemma MimeTypeInjective(f: ImageFormat, g: ImageFormat)
    ensures MimeType(f) == MimeType(g) <==> f == g
  {
    if MimeType(f) == MimeType(g) {
      assert MimeType(f)[6..] == MimeType(g)[6..];
    }
  }

  /** The signature as it appears in the stream. Only the JPEG signature
      opens with 0xFF, so at most one of the two can match a stream. */
  function SignatureBytes(f: ImageFormat): (s: seq<u8>)
    ensures |s| >= 2
    ensures s[0] == 0xFF <==> f == Jpeg
  {
    match f
    case Jpeg => [0xFF, 0xD8]
    case Png => [0x89, 0x50, 0x4E, 0x47, 0x0D, 0x0A, 0x1A, 0x0A]
  }

  /** The signature value `match` compares the header against: the JPEG
      start-of-image marker (Table B.1 of ITU-T T.81) and the PNG file
      signature (section 5.2 of the PNG specification). It is the
      big-endian reading of the signature bytes. */
  function Signature(f: ImageFormat): (v: nat)
    ensures v == BE(SignatureBytes(f))
  {
    var s := SignatureBytes(f);
    match f
    case Jpeg =>
      assert BE(s[..1]) == 0xFF by { assert s[..1][..0] == []; }
      assert BE(s) == 0xFFD8 by { assert s[..2][..1] == s[..1]; }
      0xFFD8
    case Png =>
      assert BE(s[..1]) == 0x89 by { assert s[..1][..0] == []; }
      assert BE(s[..2]) == 0x8950 by { assert s[..2][..1] == s[..1]; }
      assert BE(s[..3]) == 0x89504E by { assert s[..3][..2] == s[..2]; }
      assert BE(s[..4]) == 0x89504E47 by { assert s[..4][..3] == s[..3]; }
      assert BE(s[..5]) == 0x89504E470D by { assert s[..5][..4] == s[..4]; }
      assert BE(s[..6]) == 0x89504E470D0A by { assert s[..6][..5] == s[..5]; }
      assert BE(s[..7]) == 0x89504E470D0A1A by { assert s[..7][..6] == s[..6]; }
      assert BE(s) == 0x89504E470D0A1A0A by { assert s[..8][..7] == s[..7]; assert s[..8] == s; }
      0x89504E470D0A1A0A
  }

  /** `headerLength`: how many bytes `match` reads, and where it leaves the
      cursor; exactly the signature's length. */
  function HeaderLength(f: ImageFormat): (n: nat)
    ensures n == |SignatureBytes(f)|
    ensures Signature(f) < Pow256(n)
  {
    match f
    case Jpeg => 2
    case Png => 8
  }

  /** The signature bytes are the header-length big-endian spelling of the signature value. */
  lemma SignatureSpelling(f: ImageFormat)
    ensures ToBE(Signature(f), HeaderLength(f)) == SignatureBytes(f)
  {
    BEMatches(SignatureBytes(f), Signature(f));
  }

  /** What `match` answers for a stream: a read error when the stream is
      shorter than the header, otherwise whether the header equals the
      signature. The cursor's earlier position plays no part. */
  function Matches(f: ImageFormat, data: seq<u8>): (r: Result<bool>)
    ensures r.Err? <==> |data| < HeaderLength(f)
    ensures r.Err? ==> r.failure == EndOfStream
    ensures r == Ok(true) <==> HeaderLength(f) <= |data| && data[..HeaderLength(f)] == SignatureBytes(f)
  {
    var n := HeaderLength(f);
    if |data| < n then Err(EndOfStream)
    else
      SignatureSpelling(f);
      BEMatches(data[..n], Signature(f));
      Ok(BE(data[..n]) == Signature(f))
  }

  /** `match(_:)`: rewind to offset 0, read the header as a big-endian
      integer of the format's width and compare it with the signature. */
  method Match(f: ImageFormat, reader: Reader) returns (r: Result<bool>)
    requires reader.Valid()
    modifies reader
    ensures reader.Valid()
    ensures r == Matches(f, reader.data)
    ensures r.Ok? ==> reader.pos == HeaderLength(f)
  {
    var rewound := reader.Seek(0);
    assert rewound == Done;
    match f
    case Jpeg =>
      var header :- reader.ReadU16BE();
      return Ok(header == 0xFFD8);
    case Png =>
      var header :- reader.ReadU64BE();
      return Ok(header == 0x89504E470D0A1A0A);
  }

  /** `first(where:)` over `cases`: the first format that matches; a read
      error stops the search at once. */
  function FirstMatch(cases: seq<ImageFormat>, data: seq<u8>): (r: Result<ImageFormat>)
    ensures r.Ok? ==> r.value in cases && Matches(r.value, data) == Ok(true)
    ensures r.Err? ==> r.failure == NoMatchingFormat || r.failure == EndOfStream
  {
    if cases == [] then Err(NoMatchingFormat)
    else match Matches(cases[0], data)
      case Err(e) => Err(e)
      case Ok(true) => Ok(cases[0])
      case Ok(false) => FirstMatch(cases[1..], data)
  }

  /** Every case in `cases` answers that it does not match. */
  ghost predicate AllMiss(cases: seq<ImageFormat>, data: seq<u8>)
  {
    forall j :: 0 <= j < |cases| ==> Matches(cases[j], data) == Ok(false)
  }

  /** A list of cases all misses iff its first case misses and the rest all miss. */
  lemma AllMissCons(cases: seq<ImageFormat>, data: seq<u8>)
    requires |cases| > 0
    ensures AllMiss(cases, data) <==> Matches(cases[0], data) == Ok(false) && AllMiss(cases[1..], data)
  {
    var rest := cases[1..];
    if Matches(cases[0], data) == Ok(false) && AllMiss(rest, data) {
      forall j | 0 <= j < |cases|
        ensures Matches(cases[j], data) == Ok(false)
      {
        if j > 0 { assert cases[j] == rest[j - 1]; }
      }
    }
  }

  /** The cases before k all miss when the first one does and the ones
      after it, up to k, do. */
  lemma MissesBefore(cases: seq<ImageFormat>, k: nat, data: seq<u8>)
    requires 0 < k <= |cases| && Matches(cases[0], data) == Ok(false) && AllMiss(cases[1..][..k - 1], data)
    ensures AllMiss(cases[..k], data)
  {
    var before := cases[..k];
    AllMissCons(before, data);
    assert before[1..] == cases[1..][..k - 1];
  }

  /** The search stops at the first case that does not answer false: it
      returns that case when it matches and passes on its read error
      otherwise; no format is found exactly when every case answers false. */
  lemma {:induction false} FirstMatchIsFirst(cases: seq<ImageFormat>, data: seq<u8>)
    ensures FirstMatch(cases, data) == Err(NoMatchingFormat) <==> AllMiss(cases, data)
    ensures FirstMatch(cases, data).Ok? ==>
      exists i :: 0 <= i < |cases| && cases[i] == FirstMatch(cases, data).value && AllMiss(cases[..i], data)
    ensures FirstMatch(cases, data).Err? && FirstMatch(cases, data) != Err(NoMatchingFormat) ==>
      exists i :: 0 <= i < |cases| && Matches(cases[i], data) == Err(FirstMatch(cases, data).failure) && AllMiss(cases[..i], data)
  {
    var r := FirstMatch(cases, data);
    if cases == [] {
      return;
    }
    AllMissCons(cases, data);
    assert AllMiss(cases[..0], data);
    var rest := cases[1..];
    if Matches(cases[0], data) == Ok(false) {
      FirstMatchIsFirst(rest, data);
      assert r == FirstMatch(rest, data);
      if r.Ok? {
        var i :| 0 <= i < |rest| && rest[i] == r.value && AllMiss(rest[..i], data);
        MissesBefore(cases, i + 1, data);
        assert cases[i + 1] == rest[i];
      } else if r != Err(NoMatchingFormat) {
        var i :| 0 <= i < |rest| && Matches(rest[i], data) == Err(r.failure) && AllMiss(rest[..i], data);
        MissesBefore(cases, i + 1, data);
        assert cases[i + 1] == rest[i];
      }
    }
  }

  /** The format `ImageFormat(input:)` settles on for a stream: it matches
      the stream, and PNG is settled on only when JPEG does not match;
      anything else is a read error or no format at all. */
  function FormatOf(data: seq<u8>): (r: Result<ImageFormat>)
    ensures r.Ok? ==> Matches(r.value, data) == Ok(true)
    ensures r == Ok(Png) ==> Matches(Jpeg, data) == Ok(false)
    ensures r.Err? ==> r.failure == NoMatchingFormat || r.failure == EndOfStream
  {
    FirstMatch(AllCases, data)
  }

  /** `ImageFormat.init(input:)`: try every case in declaration order and
      take the first that matches. Where the source force-unwraps a missing
      match, the model fails with NoMatchingFormat. */
  method DetectFormat(input: Reader) returns (r: Result<ImageFormat>)
    requires input.Valid()
    modifies input
    ensures input.Valid()
    ensures r == FormatOf(input.data)
    ensures r.Ok? ==> input.pos == HeaderLength(r.value)
  {
    var i := 0;
    while i < |AllCases|
      invariant 0 <= i <= |AllCases|
      invariant input.Valid()
      invariant FirstMatch(AllCases[i..], input.data) == FormatOf(input.data)
    {
      assert AllCases[i..][1..] == AllCases[i + 1..];
      var matched :- Match(AllCases[i], input);
      if matched {
        return Ok(AllCases[i]);
      }
      i := i + 1;
    }
    return Err(NoMatchingFormat);
  }

  /** Detection in terms of the leading bytes: JPEG wins whenever the stream
      starts with FF D8; PNG needs its eight-byte signature and a stream
      that does not start like a JPEG; a stream of eight or more bytes that
      starts like neither is rejected; a shorter one fails to be read. */
  lemma FormatOfLeadingBytes(data: seq<u8>)
    ensures FormatOf(data) == Ok(Jpeg) <==>
      |data| >= 2 && data[..2] == SignatureBytes(Jpeg)
    ensures FormatOf(data) == Ok(Png) <==>
      |data| >= 8 && data[..2] != SignatureBytes(Jpeg) && data[..8] == SignatureBytes(Png)
    ensures FormatOf(data) == Err(NoMatchingFormat) <==>
      |data| >= 8 && data[..2] != SignatureBytes(Jpeg) && data[..8] != SignatureBytes(Png)
    ensures FormatOf(data) == Err(EndOfStream) <==>
      |data| < 2 || (|data| < 8 && data[..2] != SignatureBytes(Jpeg))
  {
    assert AllCases[1..] == [Png];
    assert AllCases[1..][1..] == [];
    assert [Png][1..] == [];
    assert HeaderLength(Png) == 8 && HeaderLength(Jpeg) == 2;
    var second := FirstMatch([Png], data);
    if |data| < 8 {
      assert second == Err(EndOfStream);
    } else if data[..8] == SignatureBytes(Png) {
      assert second == Ok(Png);
      assert data[..2][0] == data[..8][0];
    } else {
      assert Matches(Png, data) == Ok(false);
      assert second == FirstMatch([], data);
    }
  }

  /** Because every attempt rewinds first, two streams that agree on their
      first eight bytes are detected alike. */
  lemma FormatOfDependsOnHeader(a: seq<u8>, b: seq<u8>)
    requires |a| >= 8 && |b| >= 8 && a[..8] == b[..8]
    ensures FormatOf(a) == FormatOf(b)
  {
    assert a[..2] == a[..8][..2] && b[..2] == b[..8][..2];
    FormatOfLeadingBytes(a);
    FormatOfLeadingBytes(b);
  }
}
