/** HTTP/2 frame layout (section 4.1 of RFC 9113) as internal/dataplane/h2_ws_frame.go prints and
    parses it: a 24-bit length, type, flags, a 31-bit stream identifier, the payload. */
module H2Frame {
  import opened Common
  import opened Bytes

  const TWO_TO_THE_24: int := 0x100_0000
  const TWO_TO_THE_31: int := 0x8000_0000
  const TWO_TO_THE_32: int := 0x1_0000_0000

  const FRAME_DATA: byte := 0x0
  const FRAME_HEADERS: byte := 0x1
  const FRAME_RST_STREAM: byte := 0x3
  const FRAME_SETTINGS: byte := 0x4
  const FRAME_PING: byte := 0x6
  const FRAME_GO_AWAY: byte := 0x7
  const FRAME_WINDOW_UPDATE: byte := 0x8
  const FRAME_CONTINUATION: byte := 0x9

  /** `streamID` is the value handed to the printer, a 32-bit word. */
  datatype Frame = Frame(ftype: byte, flags: byte, streamID: int, payload: Text)

  /** A frame as it is read: its stream field has 31 bits. */
  type Incoming = f: Frame | 0 <= f.streamID < TWO_TO_THE_31 witness Frame(0, 0, 0, [])

  /** The k low-order bytes of n, most significant first. */
  function BigEndian(n: nat, k: nat): (b: Text)
    ensures |b| == k
  {
    if k == 0 then [] else BigEndian(n / 256, k - 1) + [n % 256]
  }

  function FromBigEndian(b: Text): nat
  {
    if b == [] then 0 else 256 * FromBigEndian(b[..|b| - 1]) + b[|b| - 1]
  }

  function Power256(k: nat): (p: nat)
    ensures p > 0
  {
    if k == 0 then 1 else 256 * Power256(k - 1)
  }

  lemma {:induction false} BigEndianRoundTrip(n: nat, k: nat)
    ensures FromBigEndian(BigEndian(n, k)) == n % Power256(k)
  {
    if k > 0 {
      BigEndianRoundTrip(n / 256, k - 1);
      var b := BigEndian(n, k);
      assert b[..k - 1] == BigEndian(n / 256, k - 1);
      ModSplit(n, Power256(k - 1));
    }
  }

  lemma ModSplit(n: nat, p: nat)
    requires p > 0
    ensures n % (256 * p) == 256 * ((n / 256) % p) + n % 256
  {
    var q, r := (n / 256) / p, (n / 256) % p;
    assert n / 256 == p * q + r;
    assert n == 256 * (n / 256) + n % 256;
    var low := 256 * r + n % 256;
    assert n == (256 * p) * q + low by {
      assert 256 * (p * q + r) == (256 * p) * q + 256 * r;
    }
    assert 0 <= low < 256 * p;
    DivisionIsUnique(n, 256 * p, q, low);
  }

  lemma DivisionIsUnique(n: nat, d: nat, q: nat, r: nat)
    requires d > 0 && n == d * q + r && r < d
    ensures n % d == r
  {
    var x := n / d - q;
    assert n == d * (n / d) + n % d;
    assert d * x == r - n % d;
    AtLeastOneFold(d, x);
    AtLeastOneFold(d, -x);
    assert d * -x == -(d * x);
  }

  lemma AtLeastOneFold(d: nat, x: int)
    ensures x >= 1 ==> d * x >= d
  {
  }

  lemma {:induction false} FromBigEndianBound(b: Text)
    ensures FromBigEndian(b) < Power256(|b|)
  {
    if b != [] {
      FromBigEndianBound(b[..|b| - 1]);
    }
  }

  /** The bytes of a frame. */
  function Print(f: Frame): Text
    requires 0 <= f.streamID < TWO_TO_THE_32
  {
    BigEndian(|f.payload|, 3) + [f.ftype, f.flags] + BigEndian(f.streamID, 4) + f.payload
  }

  function DeclaredLength(input: Text): nat
    requires |input| >= 9
  {
    FromBigEndian(input[..3])
  }

  function HeaderStream(input: Text): (id: nat)
    requires |input| >= 9
    ensures id < TWO_TO_THE_31
  {
    FromBigEndian(input[5..9]) % TWO_TO_THE_31
  }

  /** The first frame of the input, and what follows it. */
  function Parse(input: Text): Option<(Incoming, Text)>
  {
    if |input| < 9 || |input| < 9 + DeclaredLength(input) then None
    else
      var n := DeclaredLength(input);
      Some((Frame(input[3], input[4], HeaderStream(input), input[9..9 + n]), input[9 + n..]))
  }

  /** What the fields can hold. */
  predicate Encodable(f: Frame)
  {
    |f.payload| < TWO_TO_THE_24 && 0 <= f.streamID < TWO_TO_THE_31
  }

  lemma HeaderOf(f: Frame, rest: Text)
    requires 0 <= f.streamID < TWO_TO_THE_32
    ensures |Print(f) + rest| >= 9
    ensures DeclaredLength(Print(f) + rest) == |f.payload| % TWO_TO_THE_24
    ensures HeaderStream(Print(f) + rest) == f.streamID % TWO_TO_THE_31
    ensures (Print(f) + rest)[3] == f.ftype && (Print(f) + rest)[4] == f.flags
    ensures (Print(f) + rest)[9..] == f.payload + rest
  {
    hide BigEndian, FromBigEndian;
    var all := Print(f) + rest;
    assert all[..3] == BigEndian(|f.payload|, 3);
    assert all[5..9] == BigEndian(f.streamID, 4);
    BigEndianRoundTrip(|f.payload|, 3);
    BigEndianRoundTrip(f.streamID, 4);
    assert Power256(3) == TWO_TO_THE_24 && Power256(4) == TWO_TO_THE_32;
  }

  /** A printed frame reads back, followed by whatever follows it, exactly when its length fits
      the 24-bit field and its stream the 31-bit one. A longer payload is printed under its length
      modulo 2^24, and the reader then takes payload bytes for the next header. */
  lemma PrintParse(f: Frame, rest: Text)
    requires 0 <= f.streamID < TWO_TO_THE_32
    ensures Parse(Print(f) + rest) == Some((f, rest)) <==> Encodable(f)
  {
    HeaderOf(f, rest);
    var all := Print(f) + rest;
    if Encodable(f) {
      var n := |f.payload|;
      assert all[9..9 + n] == all[9..][..n] == f.payload;
      assert all[9 + n..] == all[9..][n..] == rest;
    }
  }

  /** Printing what was parsed restores the bytes, up to the reserved bit of the stream field. */
  lemma ParsePrint(input: Text)
    requires Parse(input).Some?
    ensures var (f, rest) := Parse(input).value;
      Encodable(f) && |Print(f) + rest| == |input|
      && (input[5] < 128 ==> Print(f) + rest == input)
  {
    hide BigEndian, FromBigEndian;
    var (f, rest) := Parse(input).value;
    FromBigEndianBound(input[..3]);
    assert Power256(3) == TWO_TO_THE_24;
    FromThenBigEndian(input[..3]);
    FromThenBigEndian(input[5..9]);
    if input[5] < 128 {
      FirstByte(input[5..9]);
      assert input == input[..3] + [input[3], input[4]] + input[5..9] + f.payload + rest;
    }
  }

  lemma FirstByte(b: Text)
    requires |b| == 4 && b[0] < 128
    ensures FromBigEndian(b) < TWO_TO_THE_31
  {
    assert FromBigEndian(b) == 256 * FromBigEndian(b[..3]) + b[3];
    assert FromBigEndian(b[..3]) == 256 * FromBigEndian(b[..3][..2]) + b[2];
    assert FromBigEndian(b[..3][..2]) == 256 * FromBigEndian(b[..3][..2][..1]) + b[1];
    assert FromBigEndian(b[..3][..2][..1]) == 256 * FromBigEndian([]) + b[0];
  }

  lemma {:induction false} FromThenBigEndian(b: Text)
    ensures BigEndian(FromBigEndian(b), |b|) == b
  {
    if b != [] {
      FromThenBigEndian(b[..|b| - 1]);
      assert b == b[..|b| - 1] + [b[|b| - 1]];
    }
  }

  /** All complete frames of the input, in order. */
  function Frames(input: Text): seq<Incoming>
    decreases |input|
  {
    match Parse(input)
    case None => []
    case Some((f, rest)) => [f] + Frames(rest)
  }

  function PrintAll(fs: seq<Frame>): Text
    requires forall f :: f in fs ==> Encodable(f)
  {
    if fs == [] then []
    else
      assert Encodable(fs[0]);
      Print(fs[0]) + PrintAll(fs[1..])
  }

  /** Any concatenation of printed frames, followed by an incomplete one, reads back as those
      frames. */
  lemma {:induction false} PrintedFramesReadBack(fs: seq<Frame>, tail: Text)
    requires forall f :: f in fs ==> Encodable(f)
    requires Parse(tail).None?
    ensures Frames(PrintAll(fs) + tail) == fs
  {
    if fs == [] {
      assert PrintAll(fs) + tail == tail;
    } else {
      assert fs[0] in fs;
      var more := PrintAll(fs[1..]) + tail;
      assert PrintAll(fs) + tail == Print(fs[0]) + more;
      PrintParse(fs[0], more);
      PrintedFramesReadBack(fs[1..], tail);
    }
  }

  /** prependH2FrameHeader: header and payload in one buffer. */
  method PrependH2FrameHeader(ftype: byte, flags: byte, streamID: int, payload: Text) returns (frame: array<byte>)
    requires 0 <= streamID < TWO_TO_THE_32
    ensures fresh(frame) && frame[..] == Print(Frame(ftype, flags, streamID, payload))
  {
    var n := |payload|;
    frame := new byte[9 + n];
    frame[0] := (n / 0x1_0000) % 256;
    frame[1] := (n / 0x100) % 256;
    frame[2] := n % 256;
    frame[3] := ftype;
    frame[4] := flags;
    frame[5] := (streamID / 0x100_0000) % 256;
    frame[6] := (streamID / 0x1_0000) % 256;
    frame[7] := (streamID / 0x100) % 256;
    frame[8] := streamID % 256;
    forall i | 0 <= i < n {
      frame[9 + i] := payload[i];
    }
    ThreeBytes(n);
    FourBytes(streamID);
    assert frame[..3] == BigEndian(n, 3);
    assert frame[5..9] == BigEndian(streamID, 4);
    assert frame[9..] == payload;
    assert frame[..] == frame[..3] + [frame[3], frame[4]] + frame[5..9] + frame[9..];
  }

  lemma ThreeBytes(n: nat)
    ensures BigEndian(n, 3) == [(n / 0x1_0000) % 256, (n / 0x100) % 256, n % 256]
  {
    assert n / 256 / 256 == n / 0x1_0000;
    assert BigEndian(n / 256 / 256, 1) == [] + [n / 256 / 256 % 256];
    assert BigEndian(n / 256, 2) == BigEndian(n / 256 / 256, 1) + [n / 256 % 256];
  }

  lemma FourBytes(n: nat)
    ensures BigEndian(n, 4) == [(n / 0x100_0000) % 256, (n / 0x1_0000) % 256, (n / 0x100) % 256, n % 256]
  {
    ThreeBytes(n / 256);
    assert n / 256 / 0x1_0000 == n / 0x100_0000 && n / 256 / 0x100 == n / 0x1_0000;
  }

  /** The layout of section 4.1 of RFC 9113, byte by byte. */
  lemma Layout(f: Frame)
    requires 0 <= f.streamID < TWO_TO_THE_32
    ensures var n, id := |f.payload|, f.streamID;
      Print(f) == [(n / 0x1_0000) % 256, (n / 0x100) % 256, n % 256, f.ftype, f.flags,
                   (id / 0x100_0000) % 256, (id / 0x1_0000) % 256, (id / 0x100) % 256, id % 256] + f.payload
  {
    ThreeBytes(|f.payload|);
    FourBytes(f.streamID);
    hide BigEndian;
  }
}
