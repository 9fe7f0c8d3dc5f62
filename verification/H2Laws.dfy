/** What the reader of an extended-CONNECT stream has done after any number of frames, told from the
    frames it has handled alone (internal/dataplane/h2_ws_frame.go). Types, flags, lengths and
    identifiers are written out, so that nothing here depends on how a frame is processed. */
module H2Laws {
  import opened Common
  import opened Bytes
  import opened H2Frame
  import opened H2Stream

  // ---------------------------------------------------------------------------------------
  // What the frames say
  // ---------------------------------------------------------------------------------------

  /** The payloads for the caller: DATA on stream 1, not empty, not over 2^20 bytes. */
  function Data(fs: seq<Incoming>): seq<Text>
  {
    if fs == [] then []
    else
      var f := fs[|fs| - 1];
      Data(fs[..|fs| - 1])
      + if f.ftype == 0 && f.streamID == 1 && 0 < |f.payload| <= 0x10_0000 then [f.payload] else []
  }

  /** The bytes of all DATA frames, on any stream. */
  function DataSize(fs: seq<Incoming>): int
  {
    if fs == [] then 0
    else
      var f := fs[|fs| - 1];
      DataSize(fs[..|fs| - 1]) + if f.ftype == 0 then |f.payload| else 0
  }

  /** A PING that is no acknowledgement is answered with the same payload. */
  function Pongs(fs: seq<Incoming>): seq<Text>
  {
    if fs == [] then []
    else
      var f := fs[|fs| - 1];
      Pongs(fs[..|fs| - 1])
      + if f.ftype == 6 && f.flags % 2 == 0 then [[0, 0, 8, 6, 1, 0, 0, 0, 0] + f.payload] else []
  }

  function Value(entry: Text): int
    requires |entry| >= 6
  {
    0x100_0000 * (entry[2] as int) + 0x1_0000 * (entry[3] as int) + 0x100 * (entry[4] as int) + entry[5]
  }

  /** The values of the entries with this identifier that are at least `least`. */
  function Values(payload: Text, id: byte, least: int): seq<int>
    decreases |payload|
  {
    if |payload| < 6 then []
    else (if payload[0] == 0 && payload[1] == id && Value(payload) >= least then [Value(payload)] else [])
         + Values(payload[6..], id, least)
  }

  predicate Applied(f: Incoming)
  {
    f.ftype == 4 && f.flags % 2 == 0 && |f.payload| % 6 == 0
  }

  /** The maximum frame sizes that were announced, in order. */
  function Maxima(fs: seq<Incoming>): seq<int>
  {
    if fs == [] then []
    else
      var f := fs[|fs| - 1];
      Maxima(fs[..|fs| - 1]) + if Applied(f) then Values(f.payload, 5, 16384) else []
  }

  function LastOr(values: seq<int>, otherwise: int): int
  {
    if values == [] then otherwise else values[|values| - 1]
  }

  /** The stream window: set by SETTINGS entry 4, raised by updates of stream 1. */
  function StreamWindow(start: int, fs: seq<Incoming>): int
  {
    if fs == [] then start
    else
      var f, before := fs[|fs| - 1], StreamWindow(start, fs[..|fs| - 1]);
      if Applied(f) then LastOr(Values(f.payload, 4, 0), before)
      else if f.ftype == 8 && f.streamID == 1 && |f.payload| == 4 then before + FromBigEndian(f.payload) % 0x8000_0000
      else before
  }

  predicate IsHeader(f: Incoming)
  {
    f.ftype == 1 || f.ftype == 9
  }

  predicate EndsBlock(f: Incoming)
  {
    IsHeader(f) && (f.flags / 4) % 2 == 1
  }

  /** The fragments since the last complete header block, joined in order. */
  function Fragment(start: Text, fs: seq<Incoming>): Text
  {
    if fs == [] then start
    else
      var f, before := fs[|fs| - 1], Fragment(start, fs[..|fs| - 1]);
      if EndsBlock(f) then [] else if IsHeader(f) then before + f.payload else before
  }

  /** The complete header blocks, in order. */
  function Blocks(start: Text, fs: seq<Incoming>): seq<Text>
  {
    if fs == [] then []
    else
      var f, before := fs[|fs| - 1], fs[..|fs| - 1];
      Blocks(start, before) + if EndsBlock(f) then [Fragment(start, before) + f.payload] else []
  }

  /** The statuses that these blocks decode to. */
  function Statuses(blocks: seq<Text>, decode: Text -> Decoded): seq<int>
  {
    if blocks == [] then []
    else
      var d := decode(blocks[|blocks| - 1]);
      Statuses(blocks[..|blocks| - 1], decode) + if d.status.Some? then [d.status.value] else []
  }

  /** The chunks on the wire that begin with a frame of this type. */
  function OfType(output: seq<Text>, ftype: byte): seq<Text>
  {
    if output == [] then []
    else
      var c := output[|output| - 1];
      OfType(output[..|output| - 1], ftype) + if |c| >= 9 && c[3] == ftype then [c] else []
  }

  /** The credit that the window updates on the wire announce. */
  function Announced(updates: seq<Text>): int
  {
    if updates == [] then 0
    else
      var c := updates[|updates| - 1];
      Announced(updates[..|updates| - 1]) + if |c| >= 13 then FromBigEndian(c[9..13]) else 0
  }

  /** One write with two updates of the same amount: for the connection, and for this stream. */
  predicate UpdatesBoth(chunk: Text, streamID: int)
    requires 0 <= streamID
  {
    && |chunk| == 26
    && chunk == [0, 0, 4, 8, 0, 0, 0, 0, 0] + chunk[9..13] + [0, 0, 4, 8, 0] + BigEndian(streamID, 4) + chunk[9..13]
  }

  /** The handled frame that a write of updates answers is a DATA frame of that stream. */
  ghost predicate Answers(chunk: Text, fs: seq<Incoming>)
  {
    exists f :: f in fs && f.ftype == 0 && UpdatesBoth(chunk, f.streamID)
  }

  // ---------------------------------------------------------------------------------------
  // What the reader has done
  // ---------------------------------------------------------------------------------------

  /** The frames handled between two moments. */
  function New(v: Session, w: Session): seq<Incoming>
    requires v.handled <= w.handled
  {
    w.handled[|v.handled|..]
  }

  /** Deliveries, limits and credits after these frames. */
  predicate ToldLimits(s: Peer, n: Peer, fs: seq<Incoming>)
  {
    && n.delivered == s.delivered + Data(fs)
    && n.maxFrameSize == LastOr(Maxima(fs), s.maxFrameSize)
    && n.winStream == StreamWindow(s.winStream, fs)
    && n.winConn == s.winConn + Grants(fs)
    && n.closed == s.closed
  }

  /** The response headers after these frames. */
  predicate ToldHeaders(s: Peer, n: Peer, fs: seq<Incoming>, decode: Text -> Decoded)
  {
    && n.hdrFragment == Fragment(s.hdrFragment, fs)
    && n.respStatus == LastOr(Statuses(Blocks(s.hdrFragment, fs), decode), s.respStatus)
    && n.handshake == (s.handshake || Blocks(s.hdrFragment, fs) != [])
  }

  /** The answers on the wire after these frames. */
  ghost predicate ToldReplies(s: Peer, n: Peer, fs: seq<Incoming>)
  {
    && OfType(n.output, 6) == OfType(s.output, 6) + Pongs(fs)
    && (forall f :: f in fs && f.ftype == 6 && f.flags % 2 == 0 ==> |f.payload| == 8)
    && n.recvConn == s.recvConn - DataSize(fs) + Announced(OfType(n.output, 8)) - Announced(OfType(s.output, 8))
    && OfType(s.output, 8) <= OfType(n.output, 8)
    && (forall c :: c in OfType(n.output, 8)[|OfType(s.output, 8)|..] ==> Answers(c, fs))
  }

  ghost predicate Told(s: Peer, n: Peer, fs: seq<Incoming>, decode: Text -> Decoded)
  {
    ToldLimits(s, n, fs) && ToldHeaders(s, n, fs, decode) && ToldReplies(s, n, fs)
  }

  // ---------------------------------------------------------------------------------------
  // One frame
  // ---------------------------------------------------------------------------------------

  lemma {:induction false} SettingsTold(s: Peer, payload: Text)
    ensures var n := Settings(s, payload);
      && n.maxFrameSize == LastOr(Values(payload, 5, 16384), s.maxFrameSize)
      && n.winStream == LastOr(Values(payload, 4, 0), s.winStream)
      && n == s.(maxFrameSize := n.maxFrameSize, winStream := n.winStream, history := n.history)
    decreases |payload|
  {
    hide FromBigEndian, Value;
    if |payload| >= 6 {
      EntryBytes(payload);
      SettingsTold(OneSetting(s, FromBigEndian(payload[..2]), FromBigEndian(payload[2..6])), payload[6..]);
    }
  }

  lemma EntryBytes(payload: Text)
    requires |payload| >= 6
    ensures FromBigEndian(payload[2..6]) == Value(payload) >= 0
    ensures FromBigEndian(payload[..2]) == 4 <==> payload[0] == 0 && payload[1] == 4
    ensures FromBigEndian(payload[..2]) == 5 <==> payload[0] == 0 && payload[1] == 5
  {
    var a, b := payload[..2], payload[2..6];
    assert FromBigEndian([]) == 0;
    assert a[..1][..0] == [] && FromBigEndian(a[..1]) == a[0];
    assert FromBigEndian(a) == 256 * (a[0] as int) + a[1];
    assert b[..3][..2][..1][..0] == [] && FromBigEndian(b[..3][..2][..1]) == b[0];
    assert FromBigEndian(b[..3][..2]) == 256 * (b[0] as int) + b[1];
    assert FromBigEndian(b[..3]) == 256 * (256 * (b[0] as int) + b[1]) + b[2];
  }

  /** One frame more. */
  lemma LimitsGrow(start: int, fs: seq<Incoming>, f: Incoming)
    ensures Data(fs + [f]) ==
            Data(fs) + if f.ftype == 0 && f.streamID == 1 && 0 < |f.payload| <= 0x10_0000 then [f.payload] else []
    ensures Maxima(fs + [f]) == Maxima(fs) + if Applied(f) then Values(f.payload, 5, 16384) else []
    ensures Grants(fs + [f]) == Grants(fs) + Grant(f)
    ensures StreamWindow(start, fs + [f]) ==
            if Applied(f) then LastOr(Values(f.payload, 4, 0), StreamWindow(start, fs))
            else if f.ftype == 8 && f.streamID == 1 && |f.payload| == 4
            then StreamWindow(start, fs) + FromBigEndian(f.payload) % 0x8000_0000
            else StreamWindow(start, fs)
  {
    hide Values, Grant, FromBigEndian;
    assert (fs + [f])[..|fs|] == fs;
  }

  lemma FrameLimits(s: Peer, f: Incoming, env: Env, decode: Text -> Decoded)
    requires Apply(s, f, env, decode).fatal.None?
    ensures ToldLimits(s, Apply(s, f, env, decode).peer, [f])
  {
    hide Print, Settings, FromBigEndian, BigEndian, Values, HeaderBlock;
    hide Data, Maxima, StreamWindow, Grants, ApplyRefund;
    assert [] + [f] == [f];
    LimitsGrow(s.winStream, [], f);
    NoLimits(s.winStream);
    SettingsTold(s, f.payload);
    RefundKeeps(s, f, env);
    BlockKeeps(s.(hdrStarted := true, hdrFragment := s.hdrFragment + f.payload), decode);
  }

  lemma NoLimits(start: int)
    ensures Data([]) == [] && Maxima([]) == [] && StreamWindow(start, []) == start && Grants([]) == 0
  {
  }

  /** A refund touches the receive counters and the wire only. */
  lemma RefundKeeps(s: Peer, f: Incoming, env: Env)
    ensures var n := ApplyData(s, f, env).peer;
      n == s.(delivered := n.delivered, recvConn := n.recvConn, recvStrm := n.recvStrm, output := n.output,
              history := n.history)
    ensures ApplyData(s, f, env).fatal.None? ==>
      |f.payload| <= 0x10_0000 && ApplyData(s, f, env).peer.delivered ==
      s.delivered + if f.streamID == 1 && f.payload != [] then [f.payload] else []
  {
    hide Print, BigEndian;
  }

  lemma BlockKeeps(s: Peer, decode: Text -> Decoded)
    ensures var n := HeaderBlock(s, decode);
      && n == s.(respStatus := n.respStatus, readErr := n.readErr, hdrFragment := [], hdrStarted := false)
      && (s.readErr.Some? ==> n.readErr == s.readErr)
  {
  }

  lemma HeadersGrow(start: Text, fs: seq<Incoming>, f: Incoming)
    ensures Fragment(start, fs + [f]) ==
            if EndsBlock(f) then [] else if IsHeader(f) then Fragment(start, fs) + f.payload else Fragment(start, fs)
    ensures Blocks(start, fs + [f]) ==
            Blocks(start, fs) + if EndsBlock(f) then [Fragment(start, fs) + f.payload] else []
    ensures Fragment(start, []) == start && Blocks(start, []) == []
  {
    assert (fs + [f])[..|fs|] == fs;
  }

  lemma StatusesGrow(blocks: seq<Text>, b: Text, decode: Text -> Decoded)
    ensures Statuses(blocks + [b], decode) ==
            Statuses(blocks, decode) + if decode(b).status.Some? then [decode(b).status.value] else []
    ensures Statuses([], decode) == []
  {
    assert (blocks + [b])[..|blocks|] == blocks;
  }

  lemma HeaderTold(s: Peer, f: Incoming, decode: Text -> Decoded)
    requires IsHeader(f) && ApplyHeaders(s, f, decode).fatal.None?
    ensures ToldHeaders(s, ApplyHeaders(s, f, decode).peer, [f], decode)
  {
    hide Fragment, Blocks, Statuses;
    assert [] + [f] == [f] && [] + [s.hdrFragment + f.payload] == [s.hdrFragment + f.payload];
    HeadersGrow(s.hdrFragment, [], f);
    StatusesGrow([], s.hdrFragment + f.payload, decode);
  }

  lemma FrameHeaders(s: Peer, f: Incoming, env: Env, decode: Text -> Decoded)
    requires Apply(s, f, env, decode).fatal.None?
    ensures ToldHeaders(s, Apply(s, f, env, decode).peer, [f], decode)
  {
    hide Print, Settings, FromBigEndian, Fragment, Blocks, Statuses, ApplyData, ApplyHeaders, HasFlag;
    if IsHeader(f) {
      HeaderTold(s, f, decode);
    } else {
      assert [] + [f] == [f];
      HeadersGrow(s.hdrFragment, [], f);
      StatusesGrow([], [], decode);
      NotAHeader(s, f, env, decode);
    }
  }

  lemma NotAHeader(s: Peer, f: Incoming, env: Env, decode: Text -> Decoded)
    requires !IsHeader(f)
    ensures var n := Apply(s, f, env, decode).peer;
      n.hdrFragment == s.hdrFragment && n.respStatus == s.respStatus && n.handshake == s.handshake
  {
    hide Print, Settings, FromBigEndian, ApplyData, ApplyHeaders, HasFlag;
    SettingsTold(s, f.payload);
    RefundKeeps(s, f, env);
  }

  lemma OfTypeGrows(output: seq<Text>, c: Text, ftype: byte)
    ensures OfType(output + [c], ftype) == OfType(output, ftype) + if |c| >= 9 && c[3] == ftype then [c] else []
  {
    assert (output + [c])[..|output|] == output;
  }

  lemma AnnouncedGrows(updates: seq<Text>, c: Text)
    ensures Announced(updates + [c]) == Announced(updates) + if |c| >= 13 then FromBigEndian(c[9..13]) else 0
  {
    assert (updates + [c])[..|updates|] == updates;
  }

  lemma RepliesGrow(fs: seq<Incoming>, f: Incoming)
    ensures DataSize(fs + [f]) == DataSize(fs) + if f.ftype == 0 then |f.payload| else 0
    ensures Pongs(fs + [f]) ==
            Pongs(fs) + if f.ftype == 6 && f.flags % 2 == 0 then [[0, 0, 8, 6, 1, 0, 0, 0, 0] + f.payload] else []
    ensures DataSize([]) == 0 && Pongs([]) == []
  {
    assert (fs + [f])[..|fs|] == fs;
  }

  /** The bytes of the frames that the reader writes. */
  lemma PongBytes(payload: Text)
    requires |payload| == 8
    ensures Print(Frame(FRAME_PING, FLAG_ACK, 0, payload)) == [0, 0, 8, 6, 1, 0, 0, 0, 0] + payload
  {
    ThreeBytes(8);
    FourBytes(0);
  }

  lemma AckBytes()
    ensures Print(Frame(FRAME_SETTINGS, FLAG_ACK, 0, [])) == [0, 0, 0, 4, 1, 0, 0, 0, 0]
  {
    ThreeBytes(0);
    FourBytes(0);
  }

  lemma UpdateBytes(streamID: int, inc: nat)
    requires 0 <= streamID < TWO_TO_THE_31 && inc < TWO_TO_THE_31
    ensures var c := WindowUpdate(0, inc) + WindowUpdate(streamID, inc);
      UpdatesBoth(c, streamID) && FromBigEndian(c[9..13]) == inc && c[3] == 8
  {
    hide Print, WindowUpdate, BigEndian, FromBigEndian;
    var i, d := BigEndian(inc, 4), BigEndian(streamID, 4);
    OneUpdate(0, inc);
    OneUpdate(streamID, inc);
    FourBytes(0);
    BigEndianRoundTrip(inc, 4);
    FourFold();
    Paired(i, d);
    assert WindowUpdate(0, inc) + WindowUpdate(streamID, inc) ==
           [0, 0, 4, 8, 0] + [0, 0, 0, 0] + i + ([0, 0, 4, 8, 0] + d + i);
  }

  lemma FourFold()
    ensures Power256(4) == TWO_TO_THE_32
  {
  }

  lemma Paired(i: Text, d: Text)
    requires |i| == 4 && |d| == 4
    ensures var c := [0, 0, 4, 8, 0] + [0, 0, 0, 0] + i + ([0, 0, 4, 8, 0] + d + i);
      && |c| == 26 && c[3] == 8 && c[9..13] == i
      && c == [0, 0, 4, 8, 0, 0, 0, 0, 0] + c[9..13] + [0, 0, 4, 8, 0] + d + c[9..13]
  {
  }

  lemma OneUpdate(streamID: int, inc: nat)
    requires 0 <= streamID < TWO_TO_THE_31
    ensures WindowUpdate(streamID, inc) == [0, 0, 4, 8, 0] + BigEndian(streamID, 4) + BigEndian(inc, 4)
  {
    ThreeBytes(4);
    hide BigEndian;
    assert BigEndian(4, 3) == [0, 0, 4];
  }

  /** A DATA frame is counted, and the refund it may cause is announced. */
  lemma DataReplies(s: Peer, f: Incoming, env: Env)
    requires f.ftype == 0 && ApplyData(s, f, env).fatal.None?
    ensures ToldReplies(s, ApplyData(s, f, env).peer, [f])
  {
    hide Print, BigEndian, FromBigEndian, WindowUpdate, OfType, Announced, DataSize, Pongs, UpdatesBoth;
    var n := ApplyData(s, f, env).peer;
    assert [] + [f] == [f];
    RepliesGrow([], f);
    assert OfType(s.output, 8)[|OfType(s.output, 8)|..] == [];
    if n.output != s.output {
      var inc := n.recvConn - s.recvConn + |f.payload|;
      UpdateBytes(f.streamID, inc);
      var c := WindowUpdate(0, inc) + WindowUpdate(f.streamID, inc);
      assert n.output == s.output + [c];
      assert UpdatesBoth(c, f.streamID);
      UpdateIsLong(c, f.streamID);
      OfTypeGrows(s.output, c, 6);
      OfTypeGrows(s.output, c, 8);
      AnnouncedGrows(OfType(s.output, 8), c);
      assert (OfType(s.output, 8) + [c])[|OfType(s.output, 8)|..] == [c];
      assert f in [f] && Answers(c, [f]);
    }
  }

  lemma UpdateIsLong(c: Text, streamID: nat)
    requires UpdatesBoth(c, streamID)
    ensures |c| == 26 && c[3] == 8
  {
  }

  lemma PingReplies(s: Peer, f: Incoming, env: Env)
    requires f.ftype == 6 && ApplyPing(s, f, env).fatal.None?
    ensures ToldReplies(s, ApplyPing(s, f, env).peer, [f])
  {
    hide Print, OfType, Announced, DataSize, Pongs;
    assert [] + [f] == [f];
    RepliesGrow([], f);
    if f.flags % 2 == 0 {
      PongBytes(f.payload);
      OfTypeGrows(s.output, [0, 0, 8, 6, 1, 0, 0, 0, 0] + f.payload, 6);
      OfTypeGrows(s.output, [0, 0, 8, 6, 1, 0, 0, 0, 0] + f.payload, 8);
    }
    assert OfType(s.output, 8)[|OfType(s.output, 8)|..] == [];
    assert OfType(s.output, 8) + [] == OfType(s.output, 8);
  }

  /** A frame without an answer of its own; what acknowledges SETTINGS counts as none here. */
  lemma NoReplies(s: Peer, n: Peer, f: Incoming)
    requires f.ftype != 0 && f.ftype != 6 && n.recvConn == s.recvConn
    requires n.output == s.output || n.output == s.output + [[0, 0, 0, 4, 1, 0, 0, 0, 0]]
    ensures ToldReplies(s, n, [f])
  {
    hide OfType, Announced, DataSize, Pongs;
    assert [] + [f] == [f];
    RepliesGrow([], f);
    OfTypeGrows(s.output, [0, 0, 0, 4, 1, 0, 0, 0, 0], 6);
    OfTypeGrows(s.output, [0, 0, 0, 4, 1, 0, 0, 0, 0], 8);
    assert OfType(s.output, 8)[|OfType(s.output, 8)|..] == [];
    assert OfType(s.output, 8) + [] == OfType(s.output, 8);
  }

  lemma FrameReplies(s: Peer, f: Incoming, env: Env, decode: Text -> Decoded)
    requires Apply(s, f, env, decode).fatal.None?
    ensures ToldReplies(s, Apply(s, f, env, decode).peer, [f])
  {
    hide Print, FromBigEndian, Settings, ApplyData, ApplyPing, HeaderBlock, ToldReplies;
    if f.ftype == 0 {
      DataReplies(s, f, env);
    } else if f.ftype == 6 {
      PingReplies(s, f, env);
    } else {
      SettingsTold(s, f.payload);
      BlockKeeps(s.(hdrStarted := true, hdrFragment := s.hdrFragment + f.payload), decode);
      AckBytes();
      NoReplies(s, Apply(s, f, env, decode).peer, f);
    }
  }

  // ---------------------------------------------------------------------------------------
  // Many frames
  // ---------------------------------------------------------------------------------------

  lemma LimitsOn(s: Peer, m: Peer, n: Peer, fs: seq<Incoming>, f: Incoming)
    requires ToldLimits(s, m, fs) && ToldLimits(m, n, [f])
    ensures ToldLimits(s, n, fs + [f])
  {
    hide Data, Maxima, StreamWindow, Grants, Values, FromBigEndian;
    assert [] + [f] == [f];
    LimitsGrow(s.winStream, fs, f);
    LimitsGrow(m.winStream, [], f);
    NoLimits(m.winStream);
  }

  lemma HeadersOn(s: Peer, m: Peer, n: Peer, fs: seq<Incoming>, f: Incoming, decode: Text -> Decoded)
    requires ToldHeaders(s, m, fs, decode) && ToldHeaders(m, n, [f], decode)
    ensures ToldHeaders(s, n, fs + [f], decode)
  {
    hide Fragment, Blocks, Statuses;
    assert [] + [f] == [f];
    HeadersGrow(s.hdrFragment, fs, f);
    HeadersGrow(m.hdrFragment, [], f);
    var b := m.hdrFragment + f.payload;
    assert [] + [b] == [b];
    var before := Blocks(s.hdrFragment, fs);
    assert before + [] == before;
    StatusesGrow(before, b, decode);
    StatusesGrow([], b, decode);
  }

  lemma RepliesOn(s: Peer, m: Peer, n: Peer, fs: seq<Incoming>, f: Incoming)
    requires ToldReplies(s, m, fs) && ToldReplies(m, n, [f])
    ensures ToldReplies(s, n, fs + [f])
  {
    hide OfType, Announced, DataSize, Pongs, UpdatesBoth;
    assert [] + [f] == [f];
    RepliesGrow(fs, f);
    RepliesGrow([], f);
    var a, b, c := OfType(s.output, 8), OfType(m.output, 8), OfType(n.output, 8);
    forall u | u in c[|a|..]
      ensures Answers(u, fs + [f])
    {
      assert c[|a|..] == b[|a|..] + c[|b|..];
      var g :| g in fs + [f] && g.ftype == 0 && UpdatesBoth(u, g.streamID);
    }
  }

  lemma ToldNothing(s: Peer, decode: Text -> Decoded)
    ensures Told(s, s, [], decode)
  {
    assert OfType(s.output, 8)[|OfType(s.output, 8)|..] == [];
  }

  lemma ToldOn(s: Peer, m: Peer, fs: seq<Incoming>, f: Incoming, env: Env, decode: Text -> Decoded)
    requires Told(s, m, fs, decode) && Apply(m, f, env, decode).fatal.None?
    ensures Told(s, Apply(m, f, env, decode).peer, fs + [f], decode)
  {
    hide ToldLimits, ToldHeaders, ToldReplies, Apply;
    var n := Apply(m, f, env, decode).peer;
    FrameLimits(m, f, env, decode);
    FrameHeaders(m, f, env, decode);
    FrameReplies(m, f, env, decode);
    LimitsOn(s, m, n, fs, f);
    HeadersOn(s, m, n, fs, f, decode);
    RepliesOn(s, m, n, fs, f);
  }

  /** The last of n + 1 passes comes after n. */
  lemma {:induction false} PassesLast(v: Session, n: nat, k: nat, env: nat -> Env, decode: Text -> Decoded)
    ensures Passes(v, n + 1, k, env, decode) ==
            var w := Passes(v, n, k, env, decode); if w.stopped then w else Pass(w, env(k + n), decode)
    decreases n
  {
    hide Pass;
    if n > 0 && !v.stopped {
      PassesLast(Pass(v, env(k), decode), n - 1, k + 1, env, decode);
    } else if !v.stopped {
      assert Passes(Pass(v, env(k), decode), 0, k + 1, env, decode) == Pass(v, env(k), decode);
    }
  }

  /** While the reader has not stopped it has handled the first n frames, in order, and everything it
      has done is told by them: the payloads delivered, the limits and credits, the response headers,
      the answers on the wire. */
  lemma {:induction false} ReaderTold(v: Session, n: nat, k: nat, env: nat -> Env, decode: Text -> Decoded)
    requires !Passes(v, n, k, env, decode).stopped
    ensures var w := Passes(v, n, k, env, decode);
      && n <= |v.frames| && w.handled == v.handled + v.frames[..n] && w.frames == v.frames[n..]
      && Told(v.peer, w.peer, v.frames[..n], decode)
  {
    hide Told, Apply, Passes;
    if n == 0 {
      NoPass(v, k, env, decode);
      ToldNothing(v.peer, decode);
      assert v.frames[..0] == [];
    } else {
      PassesLast(v, n - 1, k, env, decode);
      ReaderTold(v, n - 1, k, env, decode);
      var m, f := Passes(v, n - 1, k, env, decode), v.frames[n - 1];
      assert v.frames[..n] == v.frames[..n - 1] + [f];
      ToldOn(v.peer, m.peer, v.frames[..n - 1], f, env(k + n - 1), decode);
    }
  }

  lemma NoPass(v: Session, k: nat, env: nat -> Env, decode: Text -> Decoded)
    ensures Passes(v, 0, k, env, decode) == v
  {
  }

  // ---------------------------------------------------------------------------------------
  // Acknowledgements, and how the reader ends
  // ---------------------------------------------------------------------------------------

  /** SETTINGS that are no acknowledgement are acknowledged, one by one. */
  function Acks(fs: seq<Incoming>): seq<Text>
  {
    if fs == [] then []
    else
      var f := fs[|fs| - 1];
      Acks(fs[..|fs| - 1]) + if f.ftype == 4 && f.flags % 2 == 0 then [[0, 0, 0, 4, 1, 0, 0, 0, 0]] else []
  }

  lemma AcksGrow(fs: seq<Incoming>, f: Incoming)
    ensures Acks(fs + [f]) ==
            Acks(fs) + if f.ftype == 4 && f.flags % 2 == 0 then [[0, 0, 0, 4, 1, 0, 0, 0, 0]] else []
  {
    assert (fs + [f])[..|fs|] == fs;
  }

  lemma NoAcks()
    ensures Acks([]) == []
  {
  }

  lemma FrameAck(s: Peer, f: Incoming, env: Env, decode: Text -> Decoded)
    requires Apply(s, f, env, decode).fatal.None? && !env.writeFails
    ensures OfType(Apply(s, f, env, decode).peer.output, 4) ==
            OfType(s.output, 4) + if f.ftype == 4 && f.flags % 2 == 0 then [[0, 0, 0, 4, 1, 0, 0, 0, 0]] else []
  {
    hide Print, FromBigEndian, Settings, ApplyData, OfType, HeaderBlock;
    if f.ftype == 0 {
      DataAck(s, f, env);
    } else {
      SettingsTold(s, f.payload);
      BlockKeeps(s.(hdrStarted := true, hdrFragment := s.hdrFragment + f.payload), decode);
      AckBytes();
      OfTypeGrows(s.output, [0, 0, 0, 4, 1, 0, 0, 0, 0], 4);
      if f.ftype == 6 && |f.payload| == 8 {
        PongBytes(f.payload);
        OfTypeGrows(s.output, [0, 0, 8, 6, 1, 0, 0, 0, 0] + f.payload, 4);
      }
    }
  }

  lemma DataAck(s: Peer, f: Incoming, env: Env)
    ensures OfType(ApplyData(s, f, env).peer.output, 4) == OfType(s.output, 4)
  {
    hide Print, BigEndian, FromBigEndian, WindowUpdate, OfType, UpdatesBoth;
    var n := ApplyData(s, f, env).peer;
    if n.output != s.output {
      var inc := n.recvConn - s.recvConn + |f.payload|;
      UpdateBytes(f.streamID, inc);
      OfTypeGrows(s.output, WindowUpdate(0, inc) + WindowUpdate(f.streamID, inc), 4);
      UpdateIsLong(WindowUpdate(0, inc) + WindowUpdate(f.streamID, inc), f.streamID);
    }
  }

  /** Unless a write fails, every SETTINGS frame handled has been acknowledged. */
  lemma {:induction false} SettingsAcknowledged(v: Session, n: nat, k: nat, env: nat -> Env, decode: Text -> Decoded)
    requires !Passes(v, n, k, env, decode).stopped && forall i :: !env(i).writeFails
    ensures n <= |v.frames|
    ensures OfType(Passes(v, n, k, env, decode).peer.output, 4) == OfType(v.peer.output, 4) + Acks(v.frames[..n])
  {
    hide Apply, Passes, OfType, Told, Pass, Acks;
    ReaderTold(v, n, k, env, decode);
    if n == 0 {
      assert v.frames[..0] == [] && Acks([]) == [] by {
        NoAcks();
      }
      NoPass(v, k, env, decode);
    } else {
      PassesLast(v, n - 1, k, env, decode);
      SettingsAcknowledged(v, n - 1, k, env, decode);
      ReaderTold(v, n - 1, k, env, decode);
      AckOn(v, Passes(v, n - 1, k, env, decode), n, env(k + n - 1), decode);
    }
  }

  lemma AckOn(v: Session, m: Session, n: nat, env: Env, decode: Text -> Decoded)
    requires 0 < n <= |v.frames| && m.frames == v.frames[n - 1..] && !env.writeFails && !Pass(m, env, decode).stopped
    requires OfType(m.peer.output, 4) == OfType(v.peer.output, 4) + Acks(v.frames[..n - 1])
    ensures OfType(Pass(m, env, decode).peer.output, 4) == OfType(v.peer.output, 4) + Acks(v.frames[..n])
  {
    hide Apply, OfType;
    var f := v.frames[n - 1];
    assert v.frames[..n] == v.frames[..n - 1] + [f] && m.frames[0] == f;
    AcksGrow(v.frames[..n - 1], f);
    FrameAck(m.peer, f, env, decode);
  }

  /** Unless the caller has closed the stream, all payloads handled have been delivered in order, even
      when the reader has stopped. */
  lemma {:induction false} DeliveredInOrder(v: Session, n: nat, k: nat, env: nat -> Env, decode: Text -> Decoded)
    requires forall i :: !env(i).aborted
    ensures var w := Passes(v, n, k, env, decode);
      v.handled <= w.handled && w.peer.delivered == v.peer.delivered + Data(New(v, w))
  {
    hide Pass, Passes, Data;
    if n == 0 {
      NoPass(v, k, env, decode);
      NoLimits(0);
      assert New(v, v) == [];
    } else {
      PassesLast(v, n - 1, k, env, decode);
      DeliveredInOrder(v, n - 1, k, env, decode);
      var m := Passes(v, n - 1, k, env, decode);
      if !m.stopped {
        PassDelivers(m, env(k + n - 1), decode);
        DeliveredOn(v, m, Pass(m, env(k + n - 1), decode));
      }
    }
  }

  lemma DeliveredOn(v: Session, m: Session, w: Session)
    requires v.handled <= m.handled && m.peer.delivered == v.peer.delivered + Data(New(v, m))
    requires if w.handled == m.handled then w.peer.delivered == m.peer.delivered
             else m.frames != [] && w.handled == m.handled + [m.frames[0]]
                  && w.peer.delivered == m.peer.delivered + Data([m.frames[0]])
    ensures v.handled <= w.handled && w.peer.delivered == v.peer.delivered + Data(New(v, w))
  {
    hide Data;
    if w.handled != m.handled {
      var f := m.frames[0];
      assert New(v, w) == New(v, m) + [f];
      LimitsGrow(0, New(v, m), f);
      LimitsGrow(0, [], f);
      NoLimits(0);
      assert [] + [f] == [f];
    }
  }

  lemma PassDelivers(v: Session, env: Env, decode: Text -> Decoded)
    requires !env.aborted
    ensures var w := Pass(v, env, decode);
      if w.handled == v.handled then w.peer.delivered == v.peer.delivered
      else v.frames != [] && w.handled == v.handled + [v.frames[0]]
           && w.peer.delivered == v.peer.delivered + Data([v.frames[0]])
  {
    hide Apply, Data;
    if !env.cancelled && v.frames != [] {
      FrameDelivers(v.peer, v.frames[0], env, decode);
      assert |v.handled + [v.frames[0]]| != |v.handled|;
    }
  }

  lemma FrameDelivers(s: Peer, f: Incoming, env: Env, decode: Text -> Decoded)
    requires !env.aborted
    ensures Apply(s, f, env, decode).peer.delivered == s.delivered + Data([f])
  {
    hide Print, FromBigEndian, ApplySettings, ApplyHeaders, Data, ApplyData, HasFlag;
    assert [] + [f] == [f];
    LimitsGrow(0, [], f);
    NoLimits(0);
    if f.ftype == 0 {
      DataDelivers(s, f, env);
    } else {
      OthersDeliver(s, f, decode);
    }
  }

  lemma OthersDeliver(s: Peer, f: Incoming, decode: Text -> Decoded)
    ensures ApplySettings(s, f.payload).delivered == s.delivered
    ensures ApplyHeaders(s, f, decode).peer.delivered == s.delivered
  {
    hide Settings, HeaderBlock, HasFlag;
    SettingsTold(s, f.payload);
    BlockKeeps(s.(hdrStarted := true, hdrFragment := s.hdrFragment + f.payload), decode);
  }

  lemma DataDelivers(s: Peer, f: Incoming, env: Env)
    requires !env.aborted
    ensures ApplyData(s, f, env).peer.delivered ==
            s.delivered + if f.streamID == 1 && 0 < |f.payload| <= 0x10_0000 then [f.payload] else []
  {
    hide ApplyRefund;
    forall t: Peer
      ensures ApplyRefund(t, f.streamID, env).peer.delivered == t.delivered
    {
      RefundDelivers(t, f.streamID, env);
    }
  }

  lemma RefundDelivers(s: Peer, id: int, env: Env)
    requires 0 <= id < TWO_TO_THE_31
    ensures ApplyRefund(s, id, env).peer.delivered == s.delivered
  {
    hide WindowUpdate;
  }

  /** When a DATA frame takes the receive counters below 2^20, both go up by 2^20 again; otherwise they
      only go down by its size. */
  lemma RefundIs(s: Peer, f: Incoming, env: Env, decode: Text -> Decoded)
    requires RecvInv(s) && f.ftype == 0 && Apply(s, f, env, decode).fatal.None?
    ensures var n, left := Apply(s, f, env, decode).peer, s.recvConn - |f.payload|;
      n.recvConn == n.recvStrm == if left < 0x10_0000 then left + 0x10_0000 else left
  {
    hide WindowUpdate;
  }

  /** A frame that breaks the stream off, while a header block is open or not. */
  predicate Breaks(f: Incoming, open: bool)
  {
    var size, odd := |f.payload|, f.flags % 2 == 1;
    if f.ftype == 0 then size > 0x10_0000
    else if f.ftype == 1 then size > 0x10_0000 || (EndsBlock(f) && odd)
    else if f.ftype == 9 then size > 0x10_0000 || !open || (EndsBlock(f) && odd)
    else if f.ftype == 3 || f.ftype == 7 then true
    else if f.ftype == 4 then size > 4096
    else if f.ftype == 6 then size > 8 || (!odd && size != 8)
    else if f.ftype == 8 then size != 4
    else false
  }

  /** DATA on stream 1 with its lowest flag set ends the reading side in good order. */
  predicate Ends(f: Incoming)
  {
    f.ftype == 0 && f.streamID == 1 && f.flags % 2 == 1
  }

  /** With calm surroundings a pass goes on exactly when there is a frame that neither breaks nor ends
      the stream; only an end in good order leaves the connection open. */
  lemma HowItEnds(v: Session, env: Env, decode: Text -> Decoded)
    requires !env.cancelled && !env.aborted && !env.writeFails && !v.stopped
    ensures var w := Pass(v, env, decode);
      && (w.stopped <==> v.frames == [] || Breaks(v.frames[0], v.peer.hdrStarted) || Ends(v.frames[0]))
      && (w.stopped ==> w.peer.handshake && w.peer.readErr.Some?)
      && (w.stopped && (v.frames == [] || Breaks(v.frames[0], v.peer.hdrStarted)) ==> w.peer.closed)
      && (w.stopped && v.frames != [] && !Breaks(v.frames[0], v.peer.hdrStarted) ==> w.peer.closed == v.peer.closed)
      && (v.peer.readErr.None? && v.frames == [] ==> w.peer.readErr == Some(Failure))
      && (v.peer.readErr.None? && v.frames != [] && !Breaks(v.frames[0], v.peer.hdrStarted) && Ends(v.frames[0]) ==>
            w.peer.readErr == Some(EndOfStream))
      && (v.peer.readErr.Some? ==> w.peer.readErr == v.peer.readErr)
  {
    hide Apply;
    if v.frames != [] {
      WhatBreaks(v.peer, v.frames[0], env, decode);
    }
  }

  lemma WhatBreaks(s: Peer, f: Incoming, env: Env, decode: Text -> Decoded)
    requires !env.aborted && !env.writeFails
    ensures Apply(s, f, env, decode).fatal.Some? <==> Breaks(f, s.hdrStarted)
    ensures Apply(s, f, env, decode).fatal.None? ==> Apply(s, f, env, decode).peer.closed == s.closed
    ensures s.readErr.Some? || Ends(f) ==> Apply(s, f, env, decode).peer.readErr == s.readErr
  {
    hide Print, FromBigEndian, Settings, ApplyData, ApplyHeaders;
    if f.ftype == 0 {
      DataBreaks(s, f, env);
    } else if IsHeader(f) {
      HeaderBreaks(s, f, decode);
    } else {
      SettingsTold(s, f.payload);
    }
  }

  lemma DataBreaks(s: Peer, f: Incoming, env: Env)
    requires f.ftype == 0 && !env.aborted && !env.writeFails
    ensures ApplyData(s, f, env).fatal.Some? <==> Breaks(f, s.hdrStarted)
    ensures ApplyData(s, f, env).peer.closed == s.closed && ApplyData(s, f, env).peer.readErr == s.readErr
  {
    RefundKeeps(s, f, env);
    hide WindowUpdate;
  }

  lemma HeaderBreaks(s: Peer, f: Incoming, decode: Text -> Decoded)
    requires IsHeader(f)
    ensures ApplyHeaders(s, f, decode).fatal.Some? <==> Breaks(f, s.hdrStarted)
    ensures ApplyHeaders(s, f, decode).peer.closed == s.closed
    ensures s.readErr.Some? ==> ApplyHeaders(s, f, decode).peer.readErr == s.readErr
  {
    hide HeaderBlock;
    BlockKeeps(s.(hdrStarted := true, hdrFragment := s.hdrFragment + f.payload), decode);
  }

  // ---------------------------------------------------------------------------------------
  // The writer's passes
  // ---------------------------------------------------------------------------------------

  /** What may be sent is the least of the two credits and of any announced maximum. */
  lemma LimitIsLeast(s: Peer)
    ensures Limit(s) <= s.winConn && Limit(s) <= s.winStream && (s.maxFrameSize > 0 ==> Limit(s) <= s.maxFrameSize)
    ensures Limit(s) == s.winConn || Limit(s) == s.winStream || (s.maxFrameSize > 0 && Limit(s) == s.maxFrameSize)
  {
  }

  /** Without credit a writer waits on after a time-out, and gives up with what it has written when
      the stream or its writing side is closed. */
  lemma WaitingForCredit(v: Session, log: seq<Debit>, p: Text, written: nat, ticks: seq<Tick>, k: nat,
                         decode: Text -> Decoded)
    requires written < |p| && k < |ticks|
    requires var r := Passes(v, ticks[k].frames, 0, ticks[k].env, decode).peer; r.winConn <= 0 || r.winStream <= 0
    ensures var r := Passes(v, ticks[k].frames, 0, ticks[k].env, decode);
      Sending(v, log, p, written, ticks, k, decode) ==
      match ticks[k].wake
      case TimedOut => Sending(r, log, p, written, ticks, k + 1, decode)
      case StreamClosed => Written(r, log, written, Stopped)
      case WriteClosed => Written(r, log, written, Stopped)
  {
    LimitIsLeast(Passes(v, ticks[k].frames, 0, ticks[k].env, decode).peer);
  }

  /** With credit it sends one frame of as many bytes as it may, and goes on with the rest. */
  lemma SendingWithCredit(v: Session, log: seq<Debit>, p: Text, written: nat, ticks: seq<Tick>, k: nat,
                          decode: Text -> Decoded)
    requires written < |p| && k < |ticks| && !ticks[k].writeFails
    requires Limit(Passes(v, ticks[k].frames, 0, ticks[k].env, decode).peer) > 0
    ensures var r := Passes(v, ticks[k].frames, 0, ticks[k].env, decode);
      var n := if Limit(r.peer) < |p| - written then Limit(r.peer) else |p| - written;
      var payload := p[written..written + n];
      Sending(v, log, p, written, ticks, k, decode) ==
      Sending(FrameSent(r, payload), log + [DebitFor(r.peer, payload)], p, written + n, ticks, k + 1, decode)
  {
    hide Passes, FrameSent, DebitFor, Limit;
  }

  /** A frame that is sent is one DATA frame of stream 1, paid for from both credits. */
  lemma FrameSentIs(v: Session, payload: Text)
    ensures var n, w := |payload|, FrameSent(v, payload);
      && w.peer.output == v.peer.output
                          + [[(n / 0x1_0000) % 256, (n / 0x100) % 256, n % 256, 0, 0, 0, 0, 0, 1] + payload]
      && w.peer.winConn == v.peer.winConn - n && w.peer.winStream == v.peer.winStream - n
      && w.handled == v.handled && w.frames == v.frames && w.lost == v.lost && w.stopped == v.stopped
    ensures DebitFor(v.peer, payload) == Debit(payload, v.peer.winConn, v.peer.winStream, v.peer.maxFrameSize)
  {
    DataBytesAre(payload);
  }

  lemma DataBytesAre(payload: Text)
    ensures DataFrame(payload) ==
            [(|payload| / 0x1_0000) % 256, (|payload| / 0x100) % 256, |payload| % 256, 0, 0, 0, 0, 0, 1] + payload
  {
    ThreeBytes(|payload|);
    FourBytes(1);
  }
}
