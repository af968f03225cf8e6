/** Btrfs's segmented LZO framing (src/compression.rs): sectors compressed one by
    one, each behind a length header that never straddles a sector boundary. The
    LZO1X codec itself is a parameter. */
module Lzo {
  import opened Base

  /** LZO1X: `decode` is given the segment and the most it may produce. */
  datatype Codec = Codec(encode: seq<byte> -> seq<byte>, decode: (seq<byte>, nat) -> Option<seq<byte>>)

  datatype LzoError =
    | SectorTooSmall | TooShort | DeclaresMoreThanPresent | PrefixExpected(at: nat)
    | EmptySegment | SegmentPastEnd(at: nat) | SegmentCorrupt(at: nat)

  const LZO_LEN: nat := 4

  /** What a codec must do for one sector: produce something, and decode it again
      whenever there is room for it. */
  ghost predicate Lossless(c: Codec, sector: nat) {
    forall s: seq<byte> | 0 < |s| <= sector :: Restores(c, s)
  }

  ghost predicate Restores(c: Codec, s: seq<byte>) {
    |c.encode(s)| > 0 && forall want: nat | want >= |s| :: c.decode(c.encode(s), want) == Some(s)
  }

  function Le32(n: nat): (b: seq<byte>)
    requires n <= U32_MAX
    ensures |b| == LZO_LEN
  {
    [(n % 0x100) as byte, (n / 0x100 % 0x100) as byte, (n / 0x1_0000 % 0x100) as byte, (n / 0x100_0000) as byte]
  }

  function ReadU32(b: seq<byte>, at: nat): Option<nat> {
    if at + 4 <= |b|
    then Some(b[at] as int + 0x100 * b[at+1] as int + 0x1_0000 * b[at+2] as int + 0x100_0000 * b[at+3] as int)
    else None
  }

  lemma ReadBack(b: seq<byte>, at: nat, n: nat)
    requires n <= U32_MAX && at + 4 <= |b| && b[at..at+4] == Le32(n)
    ensures ReadU32(b, at) == Some(n)
  {
    Recombined(n);
    assert b[at] == b[at..at+4][0] && b[at+1] == b[at..at+4][1]
        && b[at+2] == b[at..at+4][2] && b[at+3] == b[at..at+4][3];
  }

  /** A number is the sum of its four digits to the base 256. */
  lemma Recombined(n: nat)
    ensures n == n % 0x100 + 0x100 * (n / 0x100 % 0x100) + 0x1_0000 * (n / 0x1_0000 % 0x100) + 0x100_0000 * (n / 0x100_0000)
  {
    assert n / 0x1_0000 == n / 0x100 / 0x100 && n / 0x100_0000 == n / 0x1_0000 / 0x100;
  }

  function Zeros(n: nat): seq<byte> { seq(n, _ => 0) }

  function MaxSegment(sector: nat): nat { sector + sector / 16 + 64 + 3 }

  /** The first sector of the input, or all of it. */
  function FirstSector(input: seq<byte>, sector: nat): (s: seq<byte>)
    requires sector > 0 && input != []
    ensures 0 < |s| <= sector && s <= input
  {
    input[..Min(sector, |input|)]
  }

  /** How many bytes are left to the sector boundary, when they are too few to hold
      the next header. */
  function PadAfter(end: nat, sector: nat): (pad: nat)
    requires sector > 0
    ensures pad < LZO_LEN
  {
    var left := AlignUp(end, sector) - end;
    if left < LZO_LEN then left else 0
  }

  /** A segment may be at most so long for the kernel's decoder to take it. */
  predicate SegmentFits(segment: seq<byte>, sector: nat) {
    |segment| <= MaxSegment(sector) && |segment| <= U32_MAX
  }

  /** One segment at `at`: its header, its bytes, and the padding after it. */
  function Frame(segment: seq<byte>, sector: nat, at: nat): (f: seq<byte>)
    requires sector > 0 && SegmentFits(segment, sector)
    ensures |f| == LZO_LEN + |segment| + PadAfter(at + LZO_LEN + |segment|, sector)
  {
    Le32(|segment|) + segment + Zeros(PadAfter(at + LZO_LEN + |segment|, sector))
  }

  /** The frames for `input` when the first starts at `at`; `None` when a segment
      is longer than the kernel's decoder takes. */
  function Frames(c: Codec, input: seq<byte>, sector: nat, at: nat): Option<seq<byte>>
    requires sector > 0
    decreases |input|
  {
    if input == [] then Some([]) else
      var s := FirstSector(input, sector);
      if !SegmentFits(c.encode(s), sector) then None else
        var frame := Frame(c.encode(s), sector, at);
        var rest := Frames(c, input[|s|..], sector, at + |frame|);
        if rest.None? then None else Some(frame + rest.value)
  }

  function Compressed(c: Codec, input: seq<byte>, sector: nat): Option<seq<byte>> {
    if sector < LZO_LEN then None else
      var frames := Frames(c, input, sector, LZO_LEN);
      if frames.None? || LZO_LEN + |frames.value| > U32_MAX then None
      else Some(Le32(LZO_LEN + |frames.value|) + frames.value)
  }

  /** What is framed already goes in front of the frames still to come. */
  function Prefixed(body: seq<byte>, more: Option<seq<byte>>): Option<seq<byte>> {
    if more.None? then None else Some(body + more.value)
  }

  lemma PrefixedTwice(a: seq<byte>, b: seq<byte>, more: Option<seq<byte>>)
    ensures Prefixed(a, Prefixed(b, more)) == Prefixed(a + b, more)
  {
    if more.Some? { assert a + (b + more.value) == (a + b) + more.value; }
  }

  lemma FrameBuilt(out: seq<byte>, segment: seq<byte>, sector: nat)
    requires sector > 0 && SegmentFits(segment, sector)
    ensures out + Le32(|segment|) + segment + Zeros(PadAfter(|out + Le32(|segment|) + segment|, sector))
         == out + Frame(segment, sector, |out|)
  {
    hide Le32, Zeros, PadAfter;
    assert |out + Le32(|segment|) + segment| == |out| + LZO_LEN + |segment|;
  }

  lemma FramesNone(c: Codec, sector: nat, at: nat)
    requires sector > 0
    ensures Frames(c, [], sector, at) == Some([])
  {
  }

  lemma SegmentInU32(segment: seq<byte>, sector: nat)
    requires SegmentFits(segment, sector)
    ensures |segment| <= U32_MAX
  {
  }

  lemma LengthOfZeros(n: nat) ensures |Zeros(n)| == n {}

  lemma FramesFirst(c: Codec, input: seq<byte>, sector: nat, at: nat)
    requires sector > 0 && input != []
    ensures var s := FirstSector(input, sector);
      Frames(c, input, sector, at) ==
        if !SegmentFits(c.encode(s), sector) then None
        else Prefixed(Frame(c.encode(s), sector, at), Frames(c, input[|s|..], sector, at + |Frame(c.encode(s), sector, at)|))
  {
  }

  /** What is written so far: room for the total, and frames that those of the rest
      complete. */
  predicate Framed(c: Codec, input: seq<byte>, sector: nat, out: seq<byte>, rest: seq<byte>)
    requires sector > 0
  {
    |out| >= LZO_LEN && Frames(c, input, sector, LZO_LEN) == Prefixed(out[LZO_LEN..], Frames(c, rest, sector, |out|))
  }

  lemma {:induction false} NothingFramed(c: Codec, input: seq<byte>, sector: nat)
    requires sector > 0
    ensures Framed(c, input, sector, Zeros(LZO_LEN), input)
  {
    var frames := Frames(c, input, sector, LZO_LEN);
    assert Zeros(LZO_LEN)[LZO_LEN..] == [];
    assert frames.Some? ==> [] + frames.value == frames.value;
  }

  lemma {:induction false} OneFramed(c: Codec, input: seq<byte>, sector: nat, out: seq<byte>, rest: seq<byte>)
    requires sector > 0 && rest != [] && Framed(c, input, sector, out, rest)
    ensures var s := FirstSector(rest, sector);
      if SegmentFits(c.encode(s), sector) then Framed(c, input, sector, out + Frame(c.encode(s), sector, |out|), rest[|s|..])
      else Frames(c, input, sector, LZO_LEN).None?
  {
    hide Frames, Frame, FirstSector, SegmentFits;
    FramesFirst(c, rest, sector, |out|);
    var s := FirstSector(rest, sector);
    if SegmentFits(c.encode(s), sector) {
      var frame := Frame(c.encode(s), sector, |out|);
      PrefixedTwice(out[LZO_LEN..], frame, Frames(c, rest[|s|..], sector, |out| + |frame|));
      assert (out + frame)[LZO_LEN..] == out[LZO_LEN..] + frame;
    }
  }

  lemma {:induction false} AllFramed(c: Codec, input: seq<byte>, sector: nat, out: seq<byte>)
    requires sector > 0 && Framed(c, input, sector, out, [])
    ensures Frames(c, input, sector, LZO_LEN) == Some(out[LZO_LEN..])
  {
    FramesNone(c, sector, |out|);
    hide Frames;
    assert out[LZO_LEN..] + [] == out[LZO_LEN..];
  }

  method CompressLzo(c: Codec, input: seq<byte>, sector: nat) returns (r: Option<seq<byte>>)
    ensures r == Compressed(c, input, sector)
  {
    if sector < LZO_LEN { return None; }
    var out: seq<byte> := Zeros(LZO_LEN);
    var rest := input;
    NothingFramed(c, input, sector);
    hide Frames, Le32, Zeros, FirstSector, SegmentFits, PadAfter, Frame;
    while rest != []
      invariant Framed(c, input, sector, out, rest)
      decreases |rest|
    {
      hide Framed;
      var s := FirstSector(rest, sector);
      var segment := c.encode(s);
      OneFramed(c, input, sector, out, rest);
      if !SegmentFits(segment, sector) { return None; }
      SegmentInU32(segment, sector);
      FrameBuilt(out, segment, sector);
      out := out + Le32(|segment|);
      out := out + segment;
      out := out + Zeros(PadAfter(|out|, sector));
      rest := rest[|s|..];
    }
    AllFramed(c, input, sector, out);
    if |out| > U32_MAX { return None; }
    return Some(Le32(|out|) + out[LZO_LEN..]);
  }

  // ------------------------------------------------------------------ decoding

  /** The decoder from `at` on, with `out` produced so far. */
  function DecodeFrom(c: Codec, input: seq<byte>, total: nat, ram: nat, sector: nat, at: nat, out: seq<byte>)
    : Result<seq<byte>, LzoError>
    requires sector > 0
    decreases total - at
  {
    if at >= total || |out| >= ram then Ok(out) else
      var room := sector - at % sector;
      if room < LZO_LEN then DecodeFrom(c, input, total, ram, sector, at + room, out) else
        var len := ReadU32(input, at);
        var from := at + LZO_LEN;
        if len.None? then Err(PrefixExpected(at))
        else if len.value == 0 then Err(EmptySegment)
        else if from + len.value > |input| then Err(SegmentPastEnd(from))
        else
          var piece := c.decode(input[from..from + len.value], Min(sector, ram - |out|));
          if piece.None? then Err(SegmentCorrupt(from))
          else DecodeFrom(c, input, total, ram, sector, from + len.value, out + piece.value)
  }

  function Decompressed(c: Codec, input: seq<byte>, ram: nat, sector: nat): Result<seq<byte>, LzoError> {
    if sector < LZO_LEN then Err(SectorTooSmall)
    else if |input| < LZO_LEN then Err(TooShort)
    else
      var total := ReadU32(input, 0).value;
      if total > |input| then Err(DeclaresMoreThanPresent)
      else DecodeFrom(c, input, total, ram, sector, LZO_LEN, [])
  }

  method DecompressLzo(c: Codec, input: seq<byte>, ram: nat, sector: nat) returns (r: Result<seq<byte>, LzoError>)
    ensures r == Decompressed(c, input, ram, sector)
  {
    if sector < LZO_LEN { return Err(SectorTooSmall); }
    if |input| < LZO_LEN { return Err(TooShort); }
    var total := ReadU32(input, 0).value;
    if total > |input| { return Err(DeclaresMoreThanPresent); }
    var out: seq<byte> := [];
    var at := LZO_LEN;
    while at < total && |out| < ram
      invariant DecodeFrom(c, input, total, ram, sector, LZO_LEN, []) == DecodeFrom(c, input, total, ram, sector, at, out)
      decreases total - at
    {
      var room := sector - at % sector;
      if room < LZO_LEN {
        at := at + room;
        continue;
      }
      var len := ReadU32(input, at);
      if len.None? { return Err(PrefixExpected(at)); }
      var from := at + LZO_LEN;
      if len.value == 0 { return Err(EmptySegment); }
      if from + len.value > |input| { return Err(SegmentPastEnd(from)); }
      var piece := c.decode(input[from..from + len.value], Min(sector, ram - |out|));
      if piece.None? { return Err(SegmentCorrupt(from)); }
      out := out + piece.value;
      at := from + len.value;
    }
    return Ok(out);
  }

  // ---------------------------------------------------------------- round trip

  /** A header fits between `at` and the next sector boundary. */
  predicate Ready(at: nat, sector: nat)
    requires sector > 0
  {
    at % sector + LZO_LEN <= sector
  }

  lemma ReadyAfter(end: nat, sector: nat)
    requires sector >= LZO_LEN
    ensures Ready(end + PadAfter(end, sector), sector)
    ensures PadAfter(end, sector) > 0 ==> sector - end % sector == PadAfter(end, sector)
    ensures PadAfter(end, sector) == 0 ==> Ready(end, sector)
  {
  }

  lemma SliceOfSlice(s: seq<byte>, a: nat, b: nat, c: nat, d: nat)
    requires a <= b <= |s| && c <= d <= b - a
    ensures s[a..b][c..d] == s[a+c..a+d]
  {
    var x, y := s[a..b][c..d], s[a+c..a+d];
    assert forall i | 0 <= i < d - c :: x[i] == s[a..b][c+i] == s[a+c+i] == y[i];
    assert x == y;
  }

  /** The decoder takes one segment whose header and bytes lie at `at`. */
  lemma DecodeSegment(c: Codec, stream: seq<byte>, total: nat, ram: nat, sector: nat, at: nat, out: seq<byte>, s: seq<byte>)
    requires sector >= LZO_LEN && Ready(at, sector) && Restores(c, s) && |c.encode(s)| <= U32_MAX
    requires var end := at + LZO_LEN + |c.encode(s)|;
      && end <= total <= |stream| && stream[at..at+4] == Le32(|c.encode(s)|) && stream[at+4..end] == c.encode(s)
    requires 0 < |s| <= sector && |out| + |s| <= ram
    ensures DecodeFrom(c, stream, total, ram, sector, at, out)
         == DecodeFrom(c, stream, total, ram, sector, at + LZO_LEN + |c.encode(s)|, out + s)
  {
    ReadBack(stream, at, |c.encode(s)|);
    assert c.decode(c.encode(s), Min(sector, ram - |out|)) == Some(s);
  }

  /** One frame of the stream: the decoder takes its sector and stands at the next
      frame, or has produced all it may. */
  lemma OneFrame(c: Codec, stream: seq<byte>, total: nat, ram: nat, sector: nat, at: nat, out: seq<byte>,
                 s: seq<byte>, rest: seq<byte>)
    requires sector >= LZO_LEN && Ready(at, sector) && Restores(c, s) && 0 < |s| <= sector
    requires SegmentFits(c.encode(s), sector) && at <= total <= |stream| && |out| + |s| <= ram
    requires stream[at..total] == Frame(c.encode(s), sector, at) + rest
    ensures var next := at + |Frame(c.encode(s), sector, at)|;
      && next <= total && stream[next..total] == rest && Ready(next, sector)
      && DecodeFrom(c, stream, total, ram, sector, at, out) ==
         if |out + s| >= ram then Ok(out + s) else DecodeFrom(c, stream, total, ram, sector, next, out + s)
  {
    hide DecodeFrom, Le32, Zeros, PadAfter, Restores, Frame, Ready;
    var segment := c.encode(s);
    var end := at + LZO_LEN + |segment|;
    FrameLies(stream, at, total, segment, sector, rest);
    DecodeSegment(c, stream, total, ram, sector, at, out, s);
    PadIsSkipped(c, stream, total, ram, sector, end, out + s);
    ReadyAfter(end, sector);
  }

  /** Decoding frames produces what was framed, wherever they start. */
  lemma {:induction false} FramesDecode(
    c: Codec, stream: seq<byte>, total: nat, ram: nat, sector: nat, at: nat, out: seq<byte>, input: seq<byte>)
    requires sector >= LZO_LEN && Lossless(c, sector) && Ready(at, sector)
    requires Frames(c, input, sector, at).Some? && at <= total <= |stream|
    requires stream[at..total] == Frames(c, input, sector, at).value
    requires |out| + |input| <= ram
    ensures DecodeFrom(c, stream, total, ram, sector, at, out) == Ok(out + input)
    decreases |input|
  {
    hide DecodeFrom, Frames, FirstSector, Lossless, Restores, SegmentFits, Frame, Ready;
    if input == [] {
      FramesNone(c, sector, at);
      DecodeDone(c, stream, total, ram, sector, at, out);
      assert out + input == out;
    } else {
      FramesFirst(c, input, sector, at);
      var s := FirstSector(input, sector);
      var left := input[|s|..];
      var next := at + |Frame(c.encode(s), sector, at)|;
      OneSector(c, s, sector);
      OneFrame(c, stream, total, ram, sector, at, out, s, Frames(c, left, sector, next).value);
      assert (out + s) + left == out + input;
      if |out + s| < ram {
        FramesDecode(c, stream, total, ram, sector, next, out + s, left);
      } else {
        assert left == [] && out + s == out + input;
      }
    }
  }

  lemma OneSector(c: Codec, s: seq<byte>, sector: nat)
    requires Lossless(c, sector) && 0 < |s| <= sector
    ensures Restores(c, s)
  {
  }

  lemma DecodeDone(c: Codec, stream: seq<byte>, total: nat, ram: nat, sector: nat, at: nat, out: seq<byte>)
    requires sector > 0 && at >= total
    ensures DecodeFrom(c, stream, total, ram, sector, at, out) == Ok(out)
  {
  }

  /** The decoder steps over exactly the padding the encoder put. */
  lemma PadIsSkipped(c: Codec, stream: seq<byte>, total: nat, ram: nat, sector: nat, end: nat, out: seq<byte>)
    requires sector >= LZO_LEN && end + PadAfter(end, sector) <= total
    ensures DecodeFrom(c, stream, total, ram, sector, end, out)
         == if |out| >= ram then Ok(out) else DecodeFrom(c, stream, total, ram, sector, end + PadAfter(end, sector), out)
  {
    ReadyAfter(end, sector);
  }

  lemma FrameLies(stream: seq<byte>, at: nat, total: nat, segment: seq<byte>, sector: nat, rest: seq<byte>)
    requires sector > 0 && SegmentFits(segment, sector) && at <= total <= |stream|
    requires stream[at..total] == Frame(segment, sector, at) + rest
    ensures var end, pad := at + LZO_LEN + |segment|, PadAfter(at + LZO_LEN + |segment|, sector);
      && end + pad <= total && stream[at..at+4] == Le32(|segment|)
      && stream[at+4..end] == segment && stream[end+pad..total] == rest
  {
    hide Le32, Zeros, PadAfter;
    var t, n := stream[at..total], LZO_LEN + |segment|;
    var pad := PadAfter(at + n, sector);
    assert t == Le32(|segment|) + segment + Zeros(pad) + rest;
    LengthOfZeros(pad);
    assert t[0..4] == Le32(|segment|) && t[4..n] == segment && t[n+pad..|t|] == rest;
    SliceOfSlice(stream, at, total, 0, 4);
    SliceOfSlice(stream, at, total, 4, n);
    SliceOfSlice(stream, at, total, n + pad, |t|);
  }

  /** Whatever the codec and the input, what is compressed decompresses to the
      input, zero padding after it and room to spare or not. */
  ghost predicate RoundTrips(sector: nat) {
    forall c: Codec, input: seq<byte>, padding: nat, ram: nat
      | Lossless(c, sector) && Compressed(c, input, sector).Some? && ram >= |input| ::
      Decompressed(c, Compressed(c, input, sector).value + Zeros(padding), ram, sector) == Ok(input)
  }

  lemma RoundTrip(c: Codec, input: seq<byte>, sector: nat, padding: nat, ram: nat)
    requires sector == 4 || sector >= 8
    requires Lossless(c, sector) && Compressed(c, input, sector).Some? && ram >= |input|
    ensures Decompressed(c, Compressed(c, input, sector).value + Zeros(padding), ram, sector) == Ok(input)
  {
    hide Frames, Zeros, Lossless, Le32;
    var packed := Compressed(c, input, sector).value;
    var frames := Frames(c, input, sector, LZO_LEN).value;
    var stream := packed + Zeros(padding);
    var total := |packed|;
    assert stream[0..4] == Le32(total);
    ReadBack(stream, 0, total);
    assert stream[4..total] == frames;
    FramesDecode(c, stream, total, ram, sector, LZO_LEN, [], input);
    assert [] + input == input;
  }

  /** Stored as it is, with a length in front. */
  const StoredCodec: Codec := Codec((s: seq<byte>) => s, (s: seq<byte>, want: nat) => Some(s))

  /** Between five and seven bytes a sector, the encoder does not pad after the
      total and the decoder skips as if it had. */
  lemma FirstHeaderStraddles(sector: nat)
    requires 5 <= sector <= 7
    ensures Compressed(StoredCodec, [0], sector).Some?
    ensures Decompressed(StoredCodec, Compressed(StoredCodec, [0], sector).value, 1, sector).Err?
  {
    var packed := StoredByte(sector);
    OneStoredByte(sector);
    ReadBack(packed, 0, |packed|);
    ZerosAreNoSegment(packed, sector);
    SkipsToBoundary(packed, sector);
    hide Frame, Frames, Compressed, Le32, StoredByte, DecodeFrom, ReadU32;
  }

  lemma SkipsToBoundary(stream: seq<byte>, sector: nat)
    requires 5 <= sector <= 7 && 4 < |stream|
    ensures DecodeFrom(StoredCodec, stream, |stream|, 1, sector, 4, []) == DecodeFrom(StoredCodec, stream, |stream|, 1, sector, sector, [])
  {
    assert 4 % sector == 4;
  }

  /** One zero byte stored as it is: the total, a header, the byte, and padding. */
  function StoredByte(sector: nat): seq<byte>
    requires 5 <= sector <= 7
  {
    var frame := Frame([0], sector, 4);
    Le32(4 + |frame|) + frame
  }

  lemma ZerosAreNoSegment(stream: seq<byte>, sector: nat)
    requires 5 <= sector < |stream| && forall i | 5 <= i < |stream| :: stream[i] == 0
    ensures DecodeFrom(StoredCodec, stream, |stream|, 1, sector, sector, []).Err?
  {
    assert sector % sector == 0;
  }

  lemma OneStoredByte(sector: nat)
    requires 5 <= sector <= 7
    ensures Compressed(StoredCodec, [0], sector) == Some(StoredByte(sector))
    ensures var packed := StoredByte(sector);
      && sector < |packed| <= U32_MAX && packed[0..4] == Le32(|packed|)
      && forall i | 5 <= i < |packed| :: packed[i] == 0
  {
    var input: seq<byte> := [0];
    var frame := Frame([0], sector, 4);
    assert FirstSector(input, sector) == input && input[1..] == [];
    FramesFirst(StoredCodec, input, sector, 4);
    FramesNone(StoredCodec, sector, 4 + |frame|);
    assert frame + [] == frame;
    assert |frame| == 5 + PadAfter(9, sector);
    assert PadAfter(9, sector) == if sector == 5 then 1 else if sector == 6 then 3 else 0;
  }

  /** The framing round-trips at exactly the sector sizes the encoder takes that
      leave room for a header after the total. */
  lemma RoundTripsExactlyWhen(sector: nat)
    requires sector >= LZO_LEN
    ensures RoundTrips(sector) <==> sector == 4 || sector >= 8
  {
    if sector == 4 || sector >= 8 {
      forall c: Codec, input: seq<byte>, padding: nat, ram: nat
        | Lossless(c, sector) && Compressed(c, input, sector).Some? && ram >= |input|
        ensures Decompressed(c, Compressed(c, input, sector).value + Zeros(padding), ram, sector) == Ok(input)
      {
        RoundTrip(c, input, sector, padding, ram);
      }
    } else {
      FirstHeaderStraddles(sector);
      var packed := Compressed(StoredCodec, [0], sector).value;
      assert packed + Zeros(0) == packed;
      assert forall s: seq<byte> | 0 < |s| <= sector :: Restores(StoredCodec, s);
    }
  }

  // ------------------------------------------------------------------- headers

  /** Where each segment's header starts. */
  function Headers(c: Codec, input: seq<byte>, sector: nat, at: nat): seq<nat>
    requires sector > 0
    decreases |input|
  {
    if input == [] then [] else
      var s := FirstSector(input, sector);
      var end := at + LZO_LEN + |c.encode(s)|;
      [at] + Headers(c, input[|s|..], sector, end + PadAfter(end, sector))
  }

  /** No header crosses a sector boundary, from a start with room for one on. */
  lemma {:induction false} HeadersInsideSectors(c: Codec, input: seq<byte>, sector: nat, at: nat)
    requires sector >= LZO_LEN && Ready(at, sector)
    ensures forall h | h in Headers(c, input, sector, at) :: h % sector + LZO_LEN <= sector
    decreases |input|
  {
    if input != [] {
      var s := FirstSector(input, sector);
      var end := at + LZO_LEN + |c.encode(s)|;
      ReadyAfter(end, sector);
      HeadersInsideSectors(c, input[|s|..], sector, end + PadAfter(end, sector));
    }
  }

  /** The input's sectors, each compressed. */
  function Segments(c: Codec, input: seq<byte>, sector: nat): seq<seq<byte>>
    requires sector > 0
    decreases |input|
  {
    if input == [] then [] else
      var s := FirstSector(input, sector);
      [c.encode(s)] + Segments(c, input[|s|..], sector)
  }

  /** A header at `h`, with its segment's length, and the segment after it. */
  ghost predicate HeaderAt(packed: seq<byte>, h: nat, segment: seq<byte>) {
    && |segment| <= U32_MAX && h + LZO_LEN + |segment| <= |packed|
    && packed[h..h + LZO_LEN] == Le32(|segment|) && packed[h + LZO_LEN..h + LZO_LEN + |segment|] == segment
  }

  lemma {:induction false} FrameHeader(packed: seq<byte>, at: nat, segment: seq<byte>, sector: nat)
    requires sector > 0 && SegmentFits(segment, sector) && at + |Frame(segment, sector, at)| <= |packed|
    requires packed[at..at + |Frame(segment, sector, at)|] == Frame(segment, sector, at)
    ensures HeaderAt(packed, at, segment)
  {
    hide Le32, PadAfter, Zeros;
    var f := Frame(segment, sector, at);
    assert f[0..LZO_LEN] == Le32(|segment|) && f[LZO_LEN..LZO_LEN + |segment|] == segment;
    SliceOfSlice(packed, at, at + |f|, 0, LZO_LEN);
    SliceOfSlice(packed, at, at + |f|, LZO_LEN, LZO_LEN + |segment|);
  }

  lemma {:induction false} HeadersThere(c: Codec, input: seq<byte>, sector: nat, at: nat, packed: seq<byte>)
    requires sector > 0 && Frames(c, input, sector, at).Some?
    requires var f := Frames(c, input, sector, at).value; at + |f| <= |packed| && packed[at..at + |f|] == f
    ensures |Headers(c, input, sector, at)| == |Segments(c, input, sector)|
    ensures forall k | 0 <= k < |Headers(c, input, sector, at)| :: HeaderAt(packed, Headers(c, input, sector, at)[k], Segments(c, input, sector)[k])
    decreases |input|
  {
    hide Frame, HeaderAt, SegmentFits, PadAfter;
    if input != [] {
      var s := FirstSector(input, sector);
      var f, frame := Frames(c, input, sector, at).value, Frame(c.encode(s), sector, at);
      var rest := Frames(c, input[|s|..], sector, at + |frame|).value;
      assert f == frame + rest;
      SliceOfSlice(packed, at, at + |f|, 0, |frame|);
      SliceOfSlice(packed, at, at + |f|, |frame|, |f|);
      assert f[0..|frame|] == frame && f[|frame|..|f|] == rest;
      FrameHeader(packed, at, c.encode(s), sector);
      HeadersThere(c, input[|s|..], sector, at + |frame|, packed);
    }
  }

  /** In what is compressed, each header holds the length of the segment behind it and
      lies inside one sector, where the total leaves the first of them room. */
  lemma {:induction false} HeadersHoldLengths(c: Codec, input: seq<byte>, sector: nat)
    requires Compressed(c, input, sector).Some?
    ensures var packed, headers, segments := Compressed(c, input, sector).value, Headers(c, input, sector, LZO_LEN), Segments(c, input, sector);
      |headers| == |segments| && forall k | 0 <= k < |headers| :: HeaderAt(packed, headers[k], segments[k])
    ensures Ready(LZO_LEN, sector) ==> forall h | h in Headers(c, input, sector, LZO_LEN) :: h % sector + LZO_LEN <= sector
  {
    var packed, f := Compressed(c, input, sector).value, Frames(c, input, sector, LZO_LEN).value;
    assert packed[LZO_LEN..LZO_LEN + |f|] == f;
    HeadersThere(c, input, sector, LZO_LEN, packed);
    if Ready(LZO_LEN, sector) { HeadersInsideSectors(c, input, sector, LZO_LEN); }
  }
}
