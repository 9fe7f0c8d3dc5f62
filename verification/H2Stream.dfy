/** One extended-CONNECT stream to an HTTP/2 upstream (internal/dataplane/h2_ws_frame.go): the
    frame-level meaning of the reader, its flow-control bookkeeping, and the object that reads
    bytes and writes frames. */
module H2Stream {
  import opened Common
  import opened Bytes
  import opened H2Frame

  const FLAG_ACK: int := 0x1
  const FLAG_END_STREAM: int := 0x1
  const FLAG_END_HEADERS: int := 0x4
  const INITIAL_WINDOW: int := 0x1_0000
  const RECV_WINDOW: int := 0x4000_0000
  const RECV_REFILL: int := 0x10_0000
  const MAX_HEADER_BLOCK: int := 0x10_0000

  datatype Reason = EndOfStream | Failure

  /** What a header block decodes to: the last :status that is a number, and whether the block is
      malformed. Decoding itself is not modelled. */
  datatype Decoded = Decoded(status: Option<int>, bad: bool)

  /** The choices of the surroundings while one frame is handled. */
  datatype Env = Env(cancelled: bool, aborted: bool, writeFails: bool)

  datatype Peer = Peer(
    maxFrameSize: int, winConn: int, winStream: int, respStatus: int, recvConn: int, recvStrm: int,
    hdrFragment: Text, hdrStarted: bool, readErr: Option<Reason>, handshake: bool, closed: bool,
    delivered: seq<Text>, output: seq<Text>, history: History)

  /** What has been counted so far; the program itself keeps none of it. The stream counters start
      again whenever SETTINGS overwrites the stream window. */
  datatype History = History(received: int, refunded: int, streamBase: int, streamDebited: int, streamGranted: int)

  datatype Outcome = Outcome(peer: Peer, fatal: Option<Reason>)

  predicate HasFlag(flags: byte, flag: int)
    requires flag > 0
  {
    (flags / flag) % 2 == 1
  }

  function NoteError(s: Peer, r: Reason): Peer
  {
    if s.readErr.None? then s.(readErr := Some(r)) else s
  }

  function Send(s: Peer, chunk: Text, env: Env): Peer
  {
    if env.writeFails then s else s.(output := s.output + [chunk])
  }

  // ---------------------------------------------------------------------------------------
  // What one frame means
  // ---------------------------------------------------------------------------------------

  function OneSetting(s: Peer, id: int, val: int): Peer
  {
    if id == 4 then
      s.(winStream := val, history := s.history.(streamBase := val, streamDebited := 0, streamGranted := 0))
    else if id == 5 && val >= 16384 then s.(maxFrameSize := val)
    else s
  }

  function Settings(s: Peer, payload: Text): Peer
    decreases |payload|
  {
    if |payload| < 6 then s
    else Settings(OneSetting(s, FromBigEndian(payload[..2]), FromBigEndian(payload[2..6])), payload[6..])
  }

  function ApplySettings(s: Peer, payload: Text): Peer
  {
    if |payload| % 6 != 0 then NoteError(s, Failure) else Settings(s, payload)
  }

  /** The smaller of the refill step and the two deficits. */
  function Refund(s: Peer): int
  {
    var inc := if RECV_WINDOW - s.recvConn < RECV_REFILL then RECV_WINDOW - s.recvConn else RECV_REFILL;
    if RECV_WINDOW - s.recvStrm < inc then RECV_WINDOW - s.recvStrm else inc
  }

  function WindowUpdate(streamID: int, inc: nat): Text
    requires 0 <= streamID < TWO_TO_THE_32
  {
    Print(Frame(FRAME_WINDOW_UPDATE, 0, streamID, BigEndian(inc, 4)))
  }

  function ApplyRefund(s: Peer, streamID: int, env: Env): Outcome
    requires 0 <= streamID < TWO_TO_THE_31
  {
    var inc := Refund(s);
    if inc <= 0 then Outcome(s, None)
    else
      var credited := s.(recvConn := s.recvConn + inc, recvStrm := s.recvStrm + inc,
                           history := s.history.(refunded := s.history.refunded + inc));
      Outcome(Send(credited, WindowUpdate(0, inc) + WindowUpdate(streamID, inc), env),
              if env.writeFails then Some(Failure) else None)
  }

  /** n more bytes have been received. */
  function Counted(s: Peer, n: nat): Peer
  {
    s.(recvConn := s.recvConn - n, recvStrm := s.recvStrm - n,
        history := s.history.(received := s.history.received + n))
  }

  predicate Low(s: Peer)
  {
    s.recvStrm < RECV_REFILL || s.recvConn < RECV_REFILL
  }

  function ApplyData(s: Peer, f: Incoming, env: Env): Outcome
  {
    if |f.payload| > RECV_REFILL then Outcome(s, Some(Failure))
    else if f.streamID == 1 && f.payload != [] && env.aborted then Outcome(s, Some(EndOfStream))
    else
      var taken := if f.streamID == 1 && f.payload != [] then s.(delivered := s.delivered + [f.payload]) else s;
      var counted := Counted(taken, |f.payload|);
      if Low(counted) then ApplyRefund(counted, f.streamID, env) else Outcome(counted, None)
  }

  /** parseResponseHeaders, and the reset of the fragment. */
  function HeaderBlock(s: Peer, decode: Text -> Decoded): Peer
  {
    var d := decode(s.hdrFragment);
    var status := if d.status.Some? then s.(respStatus := d.status.value) else s;
    (if d.bad then NoteError(status, Failure) else status).(hdrFragment := [], hdrStarted := false)
  }

  function ApplyHeaders(s: Peer, f: Frame, decode: Text -> Decoded): Outcome
  {
    if |f.payload| > MAX_HEADER_BLOCK then Outcome(s, Some(Failure))
    else if f.ftype == FRAME_CONTINUATION && !s.hdrStarted then Outcome(s, Some(Failure))
    else
      var joined := s.(hdrStarted := true, hdrFragment := s.hdrFragment + f.payload);
      if !HasFlag(f.flags, FLAG_END_HEADERS) then Outcome(joined, None)
      else
        var done := HeaderBlock(joined, decode);
        if HasFlag(f.flags, FLAG_END_STREAM) then Outcome(done, Some(Failure))
        else Outcome(done.(handshake := true), None)
  }

  function ApplyPing(s: Peer, f: Frame, env: Env): Outcome
  {
    if |f.payload| > 8 then Outcome(s, Some(Failure))
    else if HasFlag(f.flags, FLAG_ACK) then Outcome(s, None)
    else if |f.payload| != 8 then Outcome(s, Some(Failure))
    else Outcome(Send(s, Print(Frame(FRAME_PING, FLAG_ACK, 0, f.payload)), env),
                 if env.writeFails then Some(Failure) else None)
  }

  function ApplyWindowUpdate(s: Peer, f: Frame): Outcome
  {
    if |f.payload| != 4 then Outcome(s, Some(Failure))
    else
      var v := FromBigEndian(f.payload) % TWO_TO_THE_31;
      if f.streamID == 0 then Outcome(s.(winConn := s.winConn + v), None)
      else if f.streamID == 1 then
        var granted := s.history.(streamGranted := s.history.streamGranted + v);
        Outcome(s.(winStream := s.winStream + v, history := granted), None)
      else Outcome(s, None)
  }

  /** The meaning of a whole frame. */
  function Apply(s: Peer, f: Incoming, env: Env, decode: Text -> Decoded): Outcome
  {
    if f.ftype == FRAME_SETTINGS then
      if |f.payload| > 4096 then Outcome(s, Some(Failure))
      else if HasFlag(f.flags, FLAG_ACK) then Outcome(s, None)
      else Outcome(Send(ApplySettings(s, f.payload), Print(Frame(FRAME_SETTINGS, FLAG_ACK, 0, [])), env), None)
    else if f.ftype == FRAME_HEADERS || f.ftype == FRAME_CONTINUATION then ApplyHeaders(s, f, decode)
    else if f.ftype == FRAME_DATA then ApplyData(s, f, env)
    else if f.ftype == FRAME_WINDOW_UPDATE then ApplyWindowUpdate(s, f)
    else if f.ftype == FRAME_PING then ApplyPing(s, f, env)
    else if f.ftype == FRAME_GO_AWAY || f.ftype == FRAME_RST_STREAM then Outcome(s, Some(Failure))
    else Outcome(s, None)
  }

  predicate EndsStream(f: Frame)
  {
    f.ftype == FRAME_DATA && HasFlag(f.flags, FLAG_END_STREAM) && f.streamID == 1
  }

  function Stop(s: Peer, r: Reason): Peer
  {
    NoteError(s, r).(handshake := true, closed := true)
  }

  // ---------------------------------------------------------------------------------------
  // The reader
  // ---------------------------------------------------------------------------------------

  /** A stream at one moment: the frames its reader has yet to handle and those it has handled, in
      order, and the bytes of DATA frames that were paid for but that the connection failed to
      write. */
  datatype Session = Session(peer: Peer, frames: seq<Incoming>, stopped: bool, handled: seq<Incoming>, lost: nat)

  /** A stream that has just been dialled. */
  function Dialled(frames: seq<Incoming>): Session
  {
    Session(Peer(0, INITIAL_WINDOW, INITIAL_WINDOW, -1, RECV_WINDOW, RECV_WINDOW, [], false, None, false, false, [], [],
                 History(0, 0, INITIAL_WINDOW, 0, 0)),
            frames, false, [], 0)
  }

  /** The reader handles f, and `rest` are the frames after it. It stops at a fatal frame and at the
      end of the stream. */
  function Handled(v: Session, f: Incoming, rest: seq<Incoming>, env: Env, decode: Text -> Decoded): Session
  {
    var o := Apply(v.peer, f, env, decode);
    var n := v.(handled := v.handled + [f]);
    if o.fatal.Some? then n.(peer := Stop(o.peer, o.fatal.value), frames := [], stopped := true)
    else if EndsStream(f)
    then n.(peer := NoteError(o.peer, EndOfStream).(handshake := true), frames := [], stopped := true)
    else n.(peer := o.peer, frames := rest)
  }

  /** One pass of the reader. It also stops when cancelled, and when no complete frame is left. */
  function Pass(v: Session, env: Env, decode: Text -> Decoded): Session
  {
    if env.cancelled || v.frames == [] then v.(peer := Stop(v.peer, Failure), frames := [], stopped := true)
    else Handled(v.(frames := []), v.frames[0], v.frames[1..], env, decode)
  }

  /** The input begins with a header, whose frame is next if it is complete. */
  lemma NextFrame(input: Text)
    ensures if |input| < 9 || |input| < 9 + DeclaredLength(input) then Frames(input) == []
            else var n := DeclaredLength(input);
              Frames(input) ==
              [Frame(input[3], input[4], HeaderStream(input), input[9..][..n])] + Frames(input[9..][n..])
  {
    hide FromBigEndian;
    if |input| >= 9 && |input| >= 9 + DeclaredLength(input) {
      var n := DeclaredLength(input);
      assert input[9..][..n] == input[9..9 + n] && input[9..][n..] == input[9 + n..];
    }
  }

  /** The reader as a fold over frames: up to n passes, the first of them number k. */
  function Passes(v: Session, n: nat, k: nat, env: nat -> Env, decode: Text -> Decoded): Session
    decreases n
  {
    if n == 0 || v.stopped then v else Passes(Pass(v, env(k), decode), n - 1, k + 1, env, decode)
  }

  /** With one pass more than frames the reader is through. */
  lemma {:induction false} PassesStop(v: Session, n: nat, k: nat, env: nat -> Env, decode: Text -> Decoded)
    requires n > |v.frames|
    ensures Passes(v, n, k, env, decode).stopped
    decreases n
  {
    hide Apply;
    if !v.stopped {
      var w := Pass(v, env(k), decode);
      if w.stopped {
        assert Passes(w, n - 1, k + 1, env, decode) == w;
      } else {
        PassesStop(w, n - 1, k + 1, env, decode);
      }
    }
  }

  // ---------------------------------------------------------------------------------------
  // Flow control
  // ---------------------------------------------------------------------------------------

  /** Receive side: both counters agree, account for every byte, and stay in a fixed band. */
  predicate RecvInv(s: Peer)
  {
    && s.recvConn == s.recvStrm
    && s.recvConn == RECV_WINDOW - s.history.received + s.history.refunded
    && RECV_REFILL <= s.recvConn <= RECV_WINDOW
  }

  /** Send side: stream credit is conserved since the last SETTINGS that overwrote it, and neither
      credit goes negative. */
  predicate SendInv(s: Peer)
  {
    && s.winStream + s.history.streamDebited == s.history.streamBase + s.history.streamGranted
    && s.winConn >= 0 && s.winStream >= 0
    && (s.maxFrameSize == 0 || 16384 <= s.maxFrameSize < TWO_TO_THE_32)
  }

  /** The connection credit that a frame grants. */
  function Grant(f: Incoming): nat
  {
    if f.ftype == FRAME_WINDOW_UPDATE && f.streamID == 0 && |f.payload| == 4
    then FromBigEndian(f.payload) % TWO_TO_THE_31 else 0
  }

  function Grants(fs: seq<Incoming>): nat
  {
    if fs == [] then 0 else Grants(fs[..|fs| - 1]) + Grant(fs[|fs| - 1])
  }

  predicate IsData(chunk: Text)
  {
    |chunk| >= 9 && chunk[3] == FRAME_DATA
  }

  /** The DATA frames among the chunks written to the wire. */
  function DataOf(output: seq<Text>): seq<Text>
  {
    if output == [] then []
    else
      var n := |output| - 1;
      DataOf(output[..n]) + if IsData(output[n]) then [output[n]] else []
  }

  /** The payload bytes of DATA frames. */
  function DataBytes(chunks: seq<Text>): int
  {
    if chunks == [] then 0
    else
      var n := |chunks| - 1;
      DataBytes(chunks[..n]) + |chunks[n]| - 9
  }

  /** Connection credit over the life of a stream: what was sent, what was lost and what is left
      are the initial window and the updates the reader has handled. */
  predicate Conserved(v: Session)
  {
    DataBytes(DataOf(v.peer.output)) + v.lost + v.peer.winConn == INITIAL_WINDOW + Grants(v.handled)
  }

  predicate Sound(v: Session)
  {
    RecvInv(v.peer) && SendInv(v.peer) && Conserved(v)
  }

  lemma {:induction false} SettingsKeep(s: Peer, payload: Text)
    requires RecvInv(s) && SendInv(s)
    ensures RecvInv(Settings(s, payload)) && SendInv(Settings(s, payload))
    decreases |payload|
  {
    if |payload| >= 6 {
      FromBigEndianBound(payload[2..6]);
      assert Power256(4) == TWO_TO_THE_32;
      SettingsKeep(OneSetting(s, FromBigEndian(payload[..2]), FromBigEndian(payload[2..6])), payload[6..]);
    }
  }

  lemma SettingsFrameKeeps(s: Peer, payload: Text)
    requires RecvInv(s) && SendInv(s)
    ensures RecvInv(ApplySettings(s, payload)) && SendInv(ApplySettings(s, payload))
  {
    SettingsKeep(s, payload);
  }

  lemma HeadersKeep(s: Peer, f: Frame, decode: Text -> Decoded)
    requires RecvInv(s) && SendInv(s)
    ensures RecvInv(ApplyHeaders(s, f, decode).peer) && SendInv(ApplyHeaders(s, f, decode).peer)
  {
    hide HasFlag;
  }

  lemma DataKeeps(s: Peer, f: Incoming, env: Env)
    requires RecvInv(s) && SendInv(s)
    ensures RecvInv(ApplyData(s, f, env).peer) && SendInv(ApplyData(s, f, env).peer)
  {
    hide Print, WindowUpdate;
  }

  /** Every frame keeps both sides' bookkeeping, whether or not it is fatal. */
  lemma ApplyKeeps(s: Peer, f: Incoming, env: Env, decode: Text -> Decoded)
    requires RecvInv(s) && SendInv(s)
    ensures RecvInv(Apply(s, f, env, decode).peer) && SendInv(Apply(s, f, env, decode).peer)
  {
    hide Print, Settings, ApplyData, FromBigEndian, HasFlag, ApplySettings, ApplyHeaders;
    if f.ftype == FRAME_HEADERS || f.ftype == FRAME_CONTINUATION {
      HeadersKeep(s, f, decode);
    }
    if f.ftype == FRAME_SETTINGS {
      SettingsFrameKeeps(s, f.payload);
    } else if f.ftype == FRAME_DATA {
      DataKeeps(s, f, env);
    }
  }

  /** The reader grants exactly what the frame says, writes no DATA and takes no send credit. */
  lemma ApplyGrants(s: Peer, f: Incoming, env: Env, decode: Text -> Decoded)
    ensures var n := Apply(s, f, env, decode).peer;
      n.winConn == s.winConn + Grant(f) && DataOf(n.output) == DataOf(s.output) && (s.handshake ==> n.handshake)
  {
    hide Print, FromBigEndian, HasFlag, Settings, BigEndian, DataOf, ApplyData;
    if f.ftype == FRAME_SETTINGS {
      SettingsWriteNothing(s, f.payload);
      OtherChunk(s.output, Frame(FRAME_SETTINGS, FLAG_ACK, 0, []), []);
    } else if f.ftype == FRAME_PING {
      OtherChunk(s.output, Frame(FRAME_PING, FLAG_ACK, 0, f.payload), []);
    } else if f.ftype == FRAME_DATA {
      DataWritesNoData(s, f, env);
    }
  }

  lemma DataWritesNoData(s: Peer, f: Incoming, env: Env)
    ensures var n := ApplyData(s, f, env).peer;
      DataOf(n.output) == DataOf(s.output) && n.winConn == s.winConn && n.handshake == s.handshake
  {
    hide Print, BigEndian, DataOf;
    forall inc: nat
      ensures DataOf(s.output + [WindowUpdate(0, inc) + WindowUpdate(f.streamID, inc)]) == DataOf(s.output)
    {
      OtherChunk(s.output, Frame(FRAME_WINDOW_UPDATE, 0, 0, BigEndian(inc, 4)), WindowUpdate(f.streamID, inc));
    }
  }

  lemma {:induction false} SettingsWriteNothing(s: Peer, payload: Text)
    ensures var n := Settings(s, payload);
      n.output == s.output && n.winConn == s.winConn && n.handshake == s.handshake
    decreases |payload|
  {
    if |payload| >= 6 {
      SettingsWriteNothing(OneSetting(s, FromBigEndian(payload[..2]), FromBigEndian(payload[2..6])), payload[6..]);
    }
  }

  lemma OtherChunk(output: seq<Text>, f: Frame, rest: Text)
    requires 0 <= f.streamID < TWO_TO_THE_32 && f.ftype != FRAME_DATA
    ensures DataOf(output + [Print(f) + rest]) == DataOf(output)
    ensures DataOf(output + [Print(f)]) == DataOf(output)
  {
    HeaderOf(f, rest);
    HeaderOf(f, []);
    assert Print(f) + [] == Print(f);
    assert (output + [Print(f) + rest])[..|output|] == output;
    assert (output + [Print(f)])[..|output|] == output;
  }

  /** What the reader leaves alone, and the order in which it handles frames. */
  predicate ReadOnly(v: Session, n: Session)
  {
    && DataOf(n.peer.output) == DataOf(v.peer.output) && n.lost == v.lost
    && (v.peer.handshake ==> n.peer.handshake)
    && v.handled <= n.handled <= v.handled + v.frames
  }

  lemma StopKeeps(s: Peer, r: Reason)
    ensures RecvInv(s) && SendInv(s) ==> RecvInv(Stop(s, r)) && SendInv(Stop(s, r))
    ensures RecvInv(s) && SendInv(s) ==>
              RecvInv(NoteError(s, r).(handshake := true)) && SendInv(NoteError(s, r).(handshake := true))
    ensures Stop(s, r).output == s.output == NoteError(s, r).output
    ensures Stop(s, r).winConn == s.winConn == NoteError(s, r).winConn && Stop(s, r).handshake
  {
  }

  lemma PassKeeps(v: Session, env: Env, decode: Text -> Decoded)
    requires Sound(v)
    ensures Sound(Pass(v, env, decode)) && ReadOnly(v, Pass(v, env, decode))
    ensures !Pass(v, env, decode).stopped ==>
        Pass(v, env, decode).handled + Pass(v, env, decode).frames == v.handled + v.frames
  {
    hide Apply, DataOf, DataBytes, Grant, RecvInv, SendInv, Stop, Grants, NoteError;
    if env.cancelled || v.frames == [] {
      StopKeeps(v.peer, Failure);
    } else {
      var f := v.frames[0];
      ApplyKeeps(v.peer, f, env, decode);
      ApplyGrants(v.peer, f, env, decode);
      GrantsGrow(v.handled, f);
      var o := Apply(v.peer, f, env, decode);
      StopKeeps(o.peer, if o.fatal.Some? then o.fatal.value else EndOfStream);
      assert v.frames == [f] + v.frames[1..];
    }
  }

  lemma GrantsGrow(fs: seq<Incoming>, f: Incoming)
    ensures Grants(fs + [f]) == Grants(fs) + Grant(f)
  {
    assert (fs + [f])[..|fs|] == fs;
  }

  /** The bookkeeping of both directions holds after every number of frames, whatever they are. */
  lemma {:induction false} PassesKeep(v: Session, n: nat, k: nat, env: nat -> Env, decode: Text -> Decoded)
    requires Sound(v)
    ensures Sound(Passes(v, n, k, env, decode)) && ReadOnly(v, Passes(v, n, k, env, decode))
    decreases n
  {
    hide Sound, Pass, DataOf;
    if n > 0 && !v.stopped {
      PassKeeps(v, env(k), decode);
      var w := Pass(v, env(k), decode);
      if w.stopped {
        assert Passes(w, n - 1, k + 1, env, decode) == w;
      } else {
        PassesKeep(w, n - 1, k + 1, env, decode);
      }
    }
  }

  // ---------------------------------------------------------------------------------------
  // The writer
  // ---------------------------------------------------------------------------------------

  /** How a writer without credit leaves its wait. */
  datatype Wake = StreamClosed | WriteClosed | TimedOut

  /** What happens around one pass of the writer's loop: the reader first handles up to `frames`
      frames, then the writer takes the lock. */
  datatype Tick = Tick(frames: nat, env: nat -> Env, wake: Wake, writeFails: bool)

  /** The credit for one DATA frame: its payload, and the limits it was cut under. */
  datatype Debit = Debit(payload: Text, winConn: int, winStream: int, cap: int)

  predicate WithinLimits(d: Debit)
  {
    1 <= |d.payload| <= d.winConn && |d.payload| <= d.winStream && (d.cap > 0 ==> |d.payload| <= d.cap)
  }

  /** `frame` is the one that the connection failed to write. */
  datatype WriteOutcome = Complete | Stopped | WireError(frame: Debit) | Pending

  /** `log` are the DATA frames sent. */
  datatype Written = Written(session: Session, log: seq<Debit>, written: nat, outcome: WriteOutcome)

  function DataFrame(payload: Text): Text
  {
    Print(Frame(FRAME_DATA, 0, 1, payload))
  }

  function Payloads(log: seq<Debit>): seq<Text>
  {
    if log == [] then [] else Payloads(log[..|log| - 1]) + [log[|log| - 1].payload]
  }

  function Joined(parts: seq<Text>): Text
  {
    if parts == [] then [] else Joined(parts[..|parts| - 1]) + parts[|parts| - 1]
  }

  function DataFrames(log: seq<Debit>): seq<Text>
  {
    if log == [] then [] else DataFrames(log[..|log| - 1]) + [DataFrame(log[|log| - 1].payload)]
  }

  /** How much may be sent now. */
  function Limit(s: Peer): int
  {
    var limit := if s.winConn < s.winStream then s.winConn else s.winStream;
    if 0 < s.maxFrameSize < limit then s.maxFrameSize else limit
  }

  /** Credit for n bytes is taken from both windows and counted against the stream. */
  function Debited(s: Peer, n: nat): Peer
  {
    s.(winConn := s.winConn - n, winStream := s.winStream - n,
       history := s.history.(streamDebited := s.history.streamDebited + n))
  }

  function Sent(s: Peer, payload: Text): Peer
  {
    s.(output := s.output + [DataFrame(payload)])
  }

  /** The frame has been paid for and goes out. */
  function FrameSent(v: Session, payload: Text): Session
  {
    v.(peer := Sent(Debited(v.peer, |payload|), payload))
  }

  /** The frame has been paid for, and the connection fails. */
  function FrameLost(v: Session, payload: Text): Session
  {
    v.(peer := Debited(v.peer, |payload|), lost := v.lost + |payload|)
  }

  function DebitFor(s: Peer, payload: Text): Debit
  {
    Debit(payload, s.winConn, s.winStream, s.maxFrameSize)
  }

  /** The writer from pass number k on, with the reader running between its passes. */
  function Sending(v: Session, log: seq<Debit>, p: Text, written: nat, ticks: seq<Tick>, k: nat,
                   decode: Text -> Decoded): Written
    requires written <= |p| && k <= |ticks|
    decreases |ticks| - k
  {
    if written == |p| then Written(v, log, written, Complete)
    else if k == |ticks| then Written(v, log, written, Pending)
    else
      var r := Passes(v, ticks[k].frames, 0, ticks[k].env, decode);
      if Limit(r.peer) <= 0 then
        if ticks[k].wake.TimedOut? then Sending(r, log, p, written, ticks, k + 1, decode)
        else Written(r, log, written, Stopped)
      else
        var n := if Limit(r.peer) > |p| - written then |p| - written else Limit(r.peer);
        var payload := p[written..written + n];
        var d := DebitFor(r.peer, payload);
        if ticks[k].writeFails then Written(FrameLost(r, payload), log, written, WireError(d))
        else Sending(FrameSent(r, payload), log + [d], p, written + n, ticks, k + 1, decode)
  }

  /** A whole call: it first waits for the handshake or the end, while the reader runs. */
  function Writing(v: Session, p: Text, opening: Tick, ticks: seq<Tick>, prefersClosed: bool,
                   decode: Text -> Decoded): Written
  {
    var r := Passes(v, opening.frames, 0, opening.env, decode);
    if r.peer.closed && (prefersClosed || !r.peer.handshake) then Written(r, [], 0, Stopped)
    else if !r.peer.handshake then Written(r, [], 0, Pending)
    else Sending(r, [], p, 0, ticks, 0, decode)
  }

  /** What a call has put on the wire after `base`: the reported prefix of p, cut into DATA frames
      within the limits of their moments. A failed connection loses exactly one more such frame. */
  predicate Delivers(w: Written, base: seq<Text>, p: Text)
  {
    && w.written <= |p| && Joined(Payloads(w.log)) == p[..w.written]
    && (forall d :: d in w.log ==> WithinLimits(d))
    && DataOf(w.session.peer.output) == base + DataFrames(w.log)
    && (w.outcome.Complete? ==> w.written == |p|)
    && (w.outcome.WireError? ==> WithinLimits(w.outcome.frame) && w.outcome.frame.payload <= p[w.written..])
  }

  function LostBy(o: WriteOutcome): nat
  {
    if o.WireError? then |o.frame.payload| else 0
  }

  lemma LogGrows(log: seq<Debit>, d: Debit)
    ensures Payloads(log + [d]) == Payloads(log) + [d.payload]
    ensures Joined(Payloads(log + [d])) == Joined(Payloads(log)) + d.payload
    ensures DataFrames(log + [d]) == DataFrames(log) + [DataFrame(d.payload)]
  {
    hide DataFrame;
    assert (log + [d])[..|log|] == log;
    assert (Payloads(log) + [d.payload])[..|Payloads(log)|] == Payloads(log);
  }

  lemma DataChunk(output: seq<Text>, payload: Text)
    ensures DataOf(output + [DataFrame(payload)]) == DataOf(output) + [DataFrame(payload)]
    ensures DataBytes(DataOf(output + [DataFrame(payload)])) == DataBytes(DataOf(output)) + |payload|
  {
    var chunk := DataFrame(payload);
    HeaderOf(Frame(FRAME_DATA, 0, 1, payload), []);
    assert chunk + [] == chunk;
    assert (output + [chunk])[..|output|] == output;
    assert (DataOf(output) + [chunk])[..|DataOf(output)|] == DataOf(output);
  }

  /** Paying for a frame that goes out, or is lost, keeps the account. */
  lemma FrameKeeps(r: Session, payload: Text)
    requires Sound(r) && 1 <= |payload| <= Limit(r.peer)
    ensures Sound(FrameLost(r, payload)) && Sound(FrameSent(r, payload))
    ensures WithinLimits(DebitFor(r.peer, payload))
  {
    hide DataOf, DataBytes, DataFrame, Grants;
    DataChunk(r.peer.output, payload);
  }

  lemma {:induction false} SendingDelivers(v: Session, base: seq<Text>, log: seq<Debit>, p: Text, written: nat,
                                           ticks: seq<Tick>, k: nat, decode: Text -> Decoded)
    requires written <= |p| && k <= |ticks| && Sound(v)
    requires Delivers(Written(v, log, written, Pending), base, p)
    ensures var w := Sending(v, log, p, written, ticks, k, decode);
      Delivers(w, base, p) && Sound(w.session) && w.session.lost == v.lost + LostBy(w.outcome)
    decreases |ticks| - k
  {
    hide Sound, Passes, DataOf, DataFrame, DataFrames, Joined, Payloads, WithinLimits;
    if written < |p| && k < |ticks| {
      var r := Passes(v, ticks[k].frames, 0, ticks[k].env, decode);
      PassesKeep(v, ticks[k].frames, 0, ticks[k].env, decode);
      if Limit(r.peer) <= 0 {
        if ticks[k].wake.TimedOut? {
          SendingDelivers(r, base, log, p, written, ticks, k + 1, decode);
        }
      } else {
        var n := if Limit(r.peer) > |p| - written then |p| - written else Limit(r.peer);
        var d := DebitFor(r.peer, p[written..written + n]);
        FrameKeeps(r, d.payload);
        if ticks[k].writeFails {
          assert p[written..][..n] == d.payload;
        } else {
          FrameDelivered(r, base, log, p, written, d);
          SendingDelivers(FrameSent(r, d.payload), base, log + [d], p, written + n, ticks, k + 1, decode);
        }
      }
    }
  }

  /** One more frame on the wire. */
  lemma FrameDelivered(r: Session, base: seq<Text>, log: seq<Debit>, p: Text, written: nat, d: Debit)
    requires Delivers(Written(r, log, written, Pending), base, p) && WithinLimits(d)
    requires written + |d.payload| <= |p| && d.payload == p[written..written + |d.payload|]
    ensures Delivers(Written(FrameSent(r, d.payload), log + [d], written + |d.payload|, Pending), base, p)
  {
    hide DataOf, DataBytes, DataFrame, DataFrames, Joined, Payloads, WithinLimits;
    LogGrows(log, d);
    DataChunk(r.peer.output, d.payload);
    assert p[..written + |d.payload|] == p[..written] + d.payload;
  }

  /** Every call, in every interleaving with the reader: the account stays balanced, and what is on
      the wire is the reported prefix. */
  lemma WritingDelivers(v: Session, p: Text, opening: Tick, ticks: seq<Tick>, prefersClosed: bool,
                        decode: Text -> Decoded)
    requires Sound(v)
    ensures var w := Writing(v, p, opening, ticks, prefersClosed, decode);
      Delivers(w, DataOf(v.peer.output), p) && Sound(w.session) && w.session.lost == v.lost + LostBy(w.outcome)
  {
    hide Sound, Passes, DataOf, Sending;
    PassesKeep(v, opening.frames, 0, opening.env, decode);
    var r := Passes(v, opening.frames, 0, opening.env, decode);
    assert Joined(Payloads([])) == p[..0];
    assert DataOf(r.peer.output) + DataFrames([]) == DataOf(r.peer.output);
    if r.peer.handshake {
      SendingDelivers(r, DataOf(v.peer.output), [], p, 0, ticks, 0, decode);
    }
  }

  // ---------------------------------------------------------------------------------------
  // The stream as an object
  // ---------------------------------------------------------------------------------------

  class Stream {
    var input: Text // what the upstream will still deliver before its connection ends
    var maxFrameSize: int
    var winConn: int
    var winStream: int
    var respStatus: int
    var recvConn: int
    var recvStrm: int
    var hdrFragment: Text
    var hdrStarted: bool
    var readErr: Option<Reason>
    var handshake: bool
    var closed: bool
    var delivered: seq<Text>
    var output: seq<Text>
    var stopped: bool // the reader has left its loop
    ghost var history: History
    ghost var handled: seq<Incoming> // the frames the reader has handled
    ghost var lost: nat              // credit paid for frames that could not be written
    const decode: Text -> Decoded

    ghost function Snapshot(): Peer
      reads this
    {
      Peer(maxFrameSize, winConn, winStream, respStatus, recvConn, recvStrm, hdrFragment, hdrStarted, readErr,
           handshake, closed, delivered, output, history)
    }

    /** The state between two passes, with the input as the frames it holds. */
    ghost function View(): Session
      reads this
    {
      Session(Snapshot(), if stopped then [] else Frames(input), stopped, handled, lost)
    }

    ghost predicate Valid()
      reads this
    {
      Sound(View())
    }

    constructor (input: Text, decode: Text -> Decoded)
      ensures Valid() && this.decode == decode && View() == Dialled(Frames(input))
    {
      this.input, this.decode := input, decode;
      maxFrameSize, winConn, winStream, respStatus := 0, INITIAL_WINDOW, INITIAL_WINDOW, -1;
      recvConn, recvStrm := RECV_WINDOW, RECV_WINDOW;
      hdrFragment, hdrStarted, readErr, handshake, closed := [], false, None, false, false;
      delivered, output, stopped := [], [], false;
      history := History(0, 0, INITIAL_WINDOW, 0, 0);
      handled, lost := [], 0;
    }

    method SetReadErr(r: Reason)
      modifies this`readErr
      ensures Snapshot() == NoteError(old(Snapshot()), r)
    {
      if readErr.None? {
        readErr := Some(r);
      }
    }

    method WriteConn(chunk: Text, env: Env)
      modifies this`output
      ensures Snapshot() == Send(old(Snapshot()), chunk, env)
    {
      if !env.writeFails {
        output := output + [chunk];
      }
    }

    /** readH2Payload: nothing is consumed of a frame that is too large. */
    method ReadPayload(length: nat, cap: nat) returns (payload: Option<Text>)
      modifies this`input
      ensures length > cap ==> input == old(input)
      ensures length <= cap && length > |old(input)| ==> input == []
      ensures payload.Some? <==> length <= cap && length <= |old(input)|
      ensures payload.Some? ==> payload.value == old(input)[..length] && input == old(input)[length..]
    {
      if length > cap {
        return None;
      }
      if length > |input| {
        input := [];
        return None;
      }
      payload := Some(input[..length]);
      input := input[length..];
    }

    method Discard(length: nat) returns (ok: bool)
      modifies this`input
      ensures ok <==> length <= |old(input)|
      ensures ok ==> input == old(input)[length..]
    {
      if length > |input| {
        input := [];
        return false;
      }
      input := input[length..];
      ok := true;
    }

    /** applySettings: six bytes at a time. */
    method ApplySettingsPayload(payload: Text)
      modifies this`winStream, this`maxFrameSize, this`readErr, this`history
      ensures Snapshot() == ApplySettings(old(Snapshot()), payload)
    {
      hide FromBigEndian, NoteError;
      if |payload| % 6 != 0 {
        SetReadErr(Failure);
        return;
      }
      var i := 0;
      assert payload[0..] == payload;
      while i + 6 <= |payload|
        invariant 0 <= i <= |payload| && i % 6 == 0
        invariant Settings(Snapshot(), payload[i..]) == Settings(old(Snapshot()), payload)
      {
        ghost var rest := payload[i..];
        assert rest[..2] == payload[i..i + 2] && rest[2..6] == payload[i + 2..i + 6] && rest[6..] == payload[i + 6..];
        var id := FromBigEndian(payload[i..i + 2]);
        var val := FromBigEndian(payload[i + 2..i + 6]);
        if id == 4 {
          winStream := val;
          history := history.(streamBase := val, streamDebited := 0, streamGranted := 0);
        } else if id == 5 {
          if val >= 16384 {
            maxFrameSize := val;
          }
        }
        i := i + 6;
      }
    }

    /** refundRecvWindow: both windows get the same credit back. */
    method RefundRecvWindow(streamID: int, env: Env) returns (fatal: Option<Reason>)
      requires 0 <= streamID < TWO_TO_THE_31
      modifies this`recvConn, this`recvStrm, this`output, this`history
      ensures Outcome(Snapshot(), fatal) == ApplyRefund(old(Snapshot()), streamID, env)
    {
      hide Print, WindowUpdate;
      var inc := RECV_REFILL;
      if RECV_WINDOW - recvConn < inc {
        inc := RECV_WINDOW - recvConn;
      }
      if RECV_WINDOW - recvStrm < inc {
        inc := RECV_WINDOW - recvStrm;
      }
      if inc <= 0 {
        return None;
      }
      recvConn := recvConn + inc;
      recvStrm := recvStrm + inc;
      history := history.(refunded := history.refunded + inc);
      WriteConn(WindowUpdate(0, inc) + WindowUpdate(streamID, inc), env);
      fatal := if env.writeFails then Some(Failure) else None;
    }

    method HandleData(flags: byte, streamID: int, length: nat, env: Env) returns (fatal: Option<Reason>)
      requires 0 <= streamID < TWO_TO_THE_31
      modifies this`input, this`delivered, this`recvConn, this`recvStrm, this`output, this`history
      ensures length <= |old(input)| ==>
        Outcome(Snapshot(), fatal) ==
            ApplyData(old(Snapshot()), Frame(FRAME_DATA, flags, streamID, old(input)[..length]), env)
      ensures length > |old(input)| ==> fatal == Some(Failure) && Snapshot() == old(Snapshot())
      ensures fatal.None? ==> length <= |old(input)| && input == old(input)[length..]
    {
      hide ApplyRefund, Print, Low, Counted;
      var payload := ReadPayload(length, RECV_REFILL);
      if payload.None? {
        return Some(Failure);
      }
      if streamID == 1 && |payload.value| > 0 {
        if env.aborted {
          return Some(EndOfStream);
        }
        delivered := delivered + [payload.value];
      }
      var low := CountReceived(length);
      fatal := None;
      if low {
        fatal := RefundRecvWindow(streamID, env);
      }
    }

    /** The receive counters go down together. */
    method CountReceived(n: nat) returns (low: bool)
      modifies this`recvConn, this`recvStrm, this`history
      ensures Snapshot() == Counted(old(Snapshot()), n) && low == Low(Snapshot())
    {
      recvStrm := recvStrm - n;
      recvConn := recvConn - n;
      history := history.(received := history.received + n);
      low := recvStrm < RECV_REFILL || recvConn < RECV_REFILL;
    }

    method HandleHeaders(ftype: byte, flags: byte, streamID: int, length: nat) returns (fatal: Option<Reason>)
      requires ftype == FRAME_HEADERS || ftype == FRAME_CONTINUATION
      modifies this`input, this`hdrStarted, this`hdrFragment, this`respStatus, this`readErr, this`handshake
      ensures length <= |old(input)| ==>
        Outcome(Snapshot(), fatal) ==
            ApplyHeaders(old(Snapshot()), Frame(ftype, flags, streamID, old(input)[..length]), decode)
      ensures length > |old(input)| ==> fatal == Some(Failure) && Snapshot() == old(Snapshot())
      ensures fatal.None? ==> length <= |old(input)| && input == old(input)[length..]
    {
      hide HasFlag, HeaderBlock;
      var payload := ReadPayload(length, MAX_HEADER_BLOCK);
      if payload.None? {
        return Some(Failure);
      }
      if ftype == FRAME_CONTINUATION && !hdrStarted {
        return Some(Failure);
      }
      hdrStarted := true;
      hdrFragment := hdrFragment + payload.value;
      if !HasFlag(flags, FLAG_END_HEADERS) {
        return None;
      }
      ParseHeaderBlock();
      if HasFlag(flags, FLAG_END_STREAM) {
        return Some(Failure);
      }
      handshake := true;
      fatal := None;
    }

    /** parseResponseHeaders, and the reset of the fragment. */
    method ParseHeaderBlock()
      modifies this`hdrStarted, this`hdrFragment, this`respStatus, this`readErr
      ensures Snapshot() == HeaderBlock(old(Snapshot()), decode)
    {
      hide NoteError;
      var d := decode(hdrFragment);
      if d.status.Some? {
        respStatus := d.status.value;
      }
      if d.bad {
        SetReadErr(Failure);
      }
      hdrFragment := [];
      hdrStarted := false;
    }

    method HandleWindowUpdate(flags: byte, streamID: int, length: nat) returns (fatal: Option<Reason>)
      modifies this`input, this`winConn, this`winStream, this`history
      ensures length <= |old(input)| ==>
        Outcome(Snapshot(), fatal) ==
            ApplyWindowUpdate(old(Snapshot()), Frame(FRAME_WINDOW_UPDATE, flags, streamID, old(input)[..length]))
      ensures length > |old(input)| ==> fatal == Some(Failure) && Snapshot() == old(Snapshot())
      ensures fatal.None? ==> length <= |old(input)| && input == old(input)[length..]
    {
      hide FromBigEndian;
      if length != 4 {
        return Some(Failure);
      }
      var inc := ReadPayload(4, 4);
      if inc.None? {
        return Some(Failure);
      }
      var v := FromBigEndian(inc.value) % TWO_TO_THE_31;
      if streamID == 0 {
        winConn := winConn + v;
      } else if streamID == 1 {
        winStream := winStream + v;
        history := history.(streamGranted := history.streamGranted + v);
      }
      fatal := None;
    }

    method HandlePing(flags: byte, streamID: int, length: nat, env: Env) returns (fatal: Option<Reason>)
      modifies this`input, this`output
      ensures length <= |old(input)| ==>
        Outcome(Snapshot(), fatal) ==
            ApplyPing(old(Snapshot()), Frame(FRAME_PING, flags, streamID, old(input)[..length]), env)
      ensures length > |old(input)| ==> fatal == Some(Failure) && Snapshot() == old(Snapshot())
      ensures fatal.None? ==> length <= |old(input)| && input == old(input)[length..]
    {
      hide Print, HasFlag;
      var payload := ReadPayload(length, 8);
      if payload.None? {
        return Some(Failure);
      }
      if HasFlag(flags, FLAG_ACK) {
        return None;
      }
      if length != 8 {
        return Some(Failure);
      }
      WriteConn(Print(Frame(FRAME_PING, FLAG_ACK, 0, payload.value)), env);
      fatal := if env.writeFails then Some(Failure) else None;
    }

    method HandleSettings(flags: byte, length: nat, env: Env) returns (fatal: Option<Reason>)
      modifies this`input, this`winStream, this`maxFrameSize, this`readErr, this`output
      modifies this`history
      ensures forall id, decode :: length <= |old(input)| && 0 <= id < TWO_TO_THE_31 ==>
        Outcome(Snapshot(), fatal) ==
            Apply(old(Snapshot()), Frame(FRAME_SETTINGS, flags, id, old(input)[..length]), env, decode)
      ensures length > |old(input)| ==> fatal == Some(Failure) && Snapshot() == old(Snapshot())
      ensures fatal.None? ==> length <= |old(input)| && input == old(input)[length..]
    {
      hide ApplySettings, Print;
      var payload := ReadPayload(length, 4096);
      if payload.None? {
        return Some(Failure);
      }
      fatal := None;
      if HasFlag(flags, FLAG_ACK) {
        return;
      }
      ApplySettingsPayload(payload.value);
      WriteConn(Print(Frame(FRAME_SETTINGS, FLAG_ACK, 0, [])), env);
    }

    /** handleFrame: the header is consumed already. A frame that is complete has exactly its
        frame-level meaning, and unless it is fatal exactly its declared length is consumed. */
    method HandleFrame(ftype: byte, flags: byte, streamID: int, length: nat, env: Env) returns (fatal: Option<Reason>)
      requires 0 <= streamID < TWO_TO_THE_31
      modifies this
      ensures length <= |old(input)| ==>
        Outcome(Snapshot(), fatal) ==
            Apply(old(Snapshot()), Frame(ftype, flags, streamID, old(input)[..length]), env, decode)
      ensures length > |old(input)| ==> fatal == Some(Failure) && Snapshot() == old(Snapshot())
      ensures fatal.None? ==> length <= |old(input)| && input == old(input)[length..]
      ensures stopped == old(stopped) && handled == old(handled) && lost == old(lost)
    {
      hide ApplyData, ApplyHeaders, ApplyPing, ApplyWindowUpdate, Print, ApplySettings;
      if ftype == FRAME_SETTINGS {
        fatal := HandleSettings(flags, length, env);
      } else if ftype == FRAME_HEADERS || ftype == FRAME_CONTINUATION {
        fatal := HandleHeaders(ftype, flags, streamID, length);
      } else if ftype == FRAME_DATA {
        fatal := HandleData(flags, streamID, length, env);
      } else if ftype == FRAME_WINDOW_UPDATE {
        fatal := HandleWindowUpdate(flags, streamID, length);
      } else if ftype == FRAME_PING {
        fatal := HandlePing(flags, streamID, length, env);
      } else {
        var ok := Discard(length);
        if !ok || ftype == FRAME_GO_AWAY || ftype == FRAME_RST_STREAM {
          return Some(Failure);
        }
        fatal := None;
      }
    }

    /** fail: the error is kept if it is the first, and everyone waiting is woken. */
    method Fail(r: Reason)
      modifies this`readErr, this`handshake, this`closed
      ensures Snapshot() == Stop(old(Snapshot()), r)
    {
      SetReadErr(r);
      handshake := true;
      closed := true;
    }

    /** One pass of readLoop. It has the meaning of the next complete frame of the input, and the
        input that stays is exactly what follows that frame. */
    method ReadFrame(env: Env)
      requires !stopped
      modifies this
      ensures View() == Pass(old(View()), env, decode)
      ensures !stopped ==> |input| < |old(input)|
    {
      hide Handled, Stop, Frames, DeclaredLength, HeaderStream;
      NextFrame(input);
      if env.cancelled || |input| < 9 {
        Fail(Failure);
        stopped := true;
        return;
      }
      var length := DeclaredLength(input);
      var ftype, flags := input[3], input[4];
      var streamID := HeaderStream(input);
      input := input[9..];
      HandleNext(ftype, flags, streamID, length, env);
    }

    /** The rest of the pass, with the header consumed. */
    method HandleNext(ftype: byte, flags: byte, streamID: int, length: nat, env: Env)
      requires !stopped && 0 <= streamID < TWO_TO_THE_31
      modifies this
      ensures length <= |old(input)| ==>
        View() == Handled(old(View()).(frames := []), Frame(ftype, flags, streamID, old(input)[..length]),
                          Frames(old(input)[length..]), env, decode)
      ensures length > |old(input)| ==>
        View() == old(View()).(peer := Stop(old(View()).peer, Failure), frames := [], stopped := true)
      ensures !stopped ==> |input| <= |old(input)|
    {
      hide Apply, NoteError, HasFlag, Frames, Stop;
      if length <= |input| {
        handled := handled + [Frame(ftype, flags, streamID, input[..length])];
      }
      var fatal := HandleFrame(ftype, flags, streamID, length, env);
      if fatal.Some? {
        Fail(fatal.value);
        stopped := true;
        return;
      }
      if ftype == FRAME_DATA && HasFlag(flags, FLAG_END_STREAM) && streamID == 1 {
        SetReadErr(EndOfStream);
        handshake := true;
        stopped := true;
      }
    }

    /** readLoop: the bytes of the upstream, however they were cut into frames, act as the fold over
        the frames they contain. */
    method ReadLoop(env: nat -> Env)
      requires Valid() && !stopped
      modifies this
      ensures Valid() && stopped
      ensures View() == Passes(old(View()), |Frames(old(input))| + 1, 0, env, decode)
    {
      hide Pass, Frames, Sound;
      ghost var n := |Frames(input)| + 1;
      ghost var goal := Passes(View(), n, 0, env, decode);
      PassesKeep(View(), n, 0, env, decode);
      PassesStop(View(), n, 0, env, decode);
      var k := 0;
      while !stopped
        invariant k <= n && Passes(View(), n - k, k, env, decode) == goal
        decreases !stopped, |input|
      {
        assert k < n;
        ReadFrame(env(k));
        k := k + 1;
      }
    }

    /** The reader handles up to tick.frames frames. */
    method Interfere(tick: Tick)
      requires Valid()
      modifies this
      ensures Valid() && View() == Passes(old(View()), tick.frames, 0, tick.env, decode)
    {
      hide Pass, Frames, Sound;
      ghost var goal := Passes(View(), tick.frames, 0, tick.env, decode);
      PassesKeep(View(), tick.frames, 0, tick.env, decode);
      var i := 0;
      while i < tick.frames && !stopped
        invariant i <= tick.frames && Passes(View(), tick.frames - i, i, tick.env, decode) == goal
      {
        ReadFrame(tick.env(i));
        i := i + 1;
      }
    }

    method SendLimit() returns (limit: int)
      ensures limit == Limit(View().peer)
    {
      limit := winStream;
      if winConn < limit {
        limit := winConn;
      }
      if 0 < maxFrameSize < limit {
        limit := maxFrameSize;
      }
    }

    /** Taking credit for a frame, from both windows. */
    method Take(n: nat)
      modifies this`winConn, this`winStream, this`history
      ensures Snapshot() == Debited(old(Snapshot()), n)
    {
      winConn := winConn - n;
      winStream := winStream - n;
      history := history.(streamDebited := history.streamDebited + n);
    }

    /** The frame is paid for, printed, and written unless the connection fails. */
    method SendFrame(payload: Text, fails: bool) returns (d: Debit)
      modifies this`winConn, this`winStream, this`history, this`output, this`lost
      ensures d == DebitFor(old(View()).peer, payload)
      ensures View() == if fails then FrameLost(old(View()), payload) else FrameSent(old(View()), payload)
    {
      hide Print, Frames;
      d := Debit(payload, winConn, winStream, maxFrameSize);
      var frame := PrependH2FrameHeader(FRAME_DATA, 0, 1, payload);
      Take(|payload|);
      if fails {
        lost := lost + |payload|;
      } else {
        output := output + [frame[..]];
      }
    }

    /** Write, with the reader running between its passes. What is on the wire is the reported
        prefix of p, cut into DATA frames within the limits of their moments; nothing else was
        paid for, but for the one frame that a failing connection loses. */
    method Write(p: Text, opening: Tick, ticks: seq<Tick>, prefersClosed: bool)
      returns (written: nat, outcome: WriteOutcome, ghost log: seq<Debit>)
      requires Valid()
      modifies this
      ensures Written(View(), log, written, outcome) == Writing(old(View()), p, opening, ticks, prefersClosed, decode)
      ensures Valid() && Delivers(Written(View(), log, written, outcome), DataOf(old(output)), p)
      ensures lost == old(lost) + LostBy(outcome)
    {
      hide Sound, Passes, DataOf, Delivers, Frames, FrameLost, FrameSent, DebitFor, Limit;
      ghost var goal := Writing(View(), p, opening, ticks, prefersClosed, decode);
      WritingDelivers(View(), p, opening, ticks, prefersClosed, decode);
      written, outcome, log := 0, Pending, [];
      Interfere(opening);
      if closed && (prefersClosed || !handshake) {
        outcome := Stopped;
        return;
      }
      if !handshake {
        return;
      }
      var k := 0;
      while k < |ticks| && written < |p|
        invariant k <= |ticks| && written <= |p| && outcome == Pending && Valid()
        invariant Sending(View(), log, p, written, ticks, k, decode) == goal
        decreases |ticks| - k
      {
        Interfere(ticks[k]);
        var limit := SendLimit();
        if limit <= 0 {
          if !ticks[k].wake.TimedOut? {
            outcome := Stopped;
            return;
          }
        } else {
          var n := if limit > |p| - written then |p| - written else limit;
          FrameKeeps(View(), p[written..written + n]);
          var d := SendFrame(p[written..written + n], ticks[k].writeFails);
          if ticks[k].writeFails {
            outcome := WireError(d);
            return;
          }
          log := log + [d];
          written := written + n;
        }
        k := k + 1;
      }
      if written == |p| {
        outcome := Complete;
      }
    }
  }

  // ---------------------------------------------------------------------------------------
  // What the account means for the peer
  // ---------------------------------------------------------------------------------------

  /** Every DATA frame of a call stands printed on the wire, and reads back at the peer exactly when
      it is below 2^24 bytes. A peer that announced a legal maximum frame size gets only such
      frames; without one, only the credits bound them. */
  lemma DataFrameReadsBack(v: Session, p: Text, opening: Tick, ticks: seq<Tick>, prefersClosed: bool,
                           decode: Text -> Decoded, d: Debit, rest: Text)
    requires Sound(v) && d in Writing(v, p, opening, ticks, prefersClosed, decode).log
    ensures DataFrame(d.payload) in Writing(v, p, opening, ticks, prefersClosed, decode).session.peer.output
    ensures Parse(DataFrame(d.payload) + rest) == Some((Frame(FRAME_DATA, 0, 1, d.payload), rest))
            <==> |d.payload| < TWO_TO_THE_24
    ensures 0 < d.cap < TWO_TO_THE_24 ==> |d.payload| < TWO_TO_THE_24
  {
    hide Writing, DataOf, Parse, Print, DataFrames;
    var w := Writing(v, p, opening, ticks, prefersClosed, decode);
    WritingDelivers(v, p, opening, ticks, prefersClosed, decode);
    LoggedFrame(w.log, d);
    assert DataFrame(d.payload) in DataOf(v.peer.output) + DataFrames(w.log);
    OnTheWire(w.session.peer.output, DataFrame(d.payload));
    PrintParse(Frame(FRAME_DATA, 0, 1, d.payload), rest);
  }

  lemma {:induction false} LoggedFrame(log: seq<Debit>, d: Debit)
    requires d in log
    ensures DataFrame(d.payload) in DataFrames(log)
  {
    hide DataFrame;
    if d != log[|log| - 1] {
      LoggedFrame(log[..|log| - 1], d);
    }
  }

  lemma {:induction false} OnTheWire(output: seq<Text>, chunk: Text)
    requires chunk in DataOf(output)
    ensures chunk in output
  {
    if output != [] && chunk in DataOf(output[..|output| - 1]) {
      OnTheWire(output[..|output| - 1], chunk);
    }
  }

  /** Section 6.9.2 of RFC 9113 starts a connection with 65535 bytes of credit; this writer starts
      with one more. It has overspent exactly when it has used all the credit it believes in. */
  lemma OverspentIff(v: Session)
    requires Sound(v)
    ensures DataBytes(DataOf(v.peer.output)) + v.lost > 65535 + Grants(v.handled) <==> v.peer.winConn == 0
  {
    hide DataBytes, DataOf, Grants;
  }

  /** Surroundings in which nothing goes wrong. */
  function Calm(): nat -> Env
  {
    _ => Env(false, false, false)
  }

  /** The final response header block. */
  function Response(): Incoming
  {
    Frame(FRAME_HEADERS, 4, 1, [])
  }

  lemma ResponseOpens(v: Session, decode: Text -> Decoded)
    requires v.frames != [] && v.frames[0] == Response() && !v.peer.hdrStarted
    ensures var n := Pass(v, Calm()(0), decode);
      && n.peer.handshake && n.peer.closed == v.peer.closed && n.stopped == v.stopped
      && n.frames == v.frames[1..] && n.handled == v.handled + [Response()] && n.peer.output == v.peer.output
      && n.peer.winConn == v.peer.winConn && n.peer.winStream == v.peer.winStream
          && n.peer.maxFrameSize == v.peer.maxFrameSize
  {
  }

  /** A run that overspends: the upstream answers and grants nothing, and one call of 65536 bytes
      sends them all. */
  lemma OverspendingRun(p: Text, decode: Text -> Decoded)
    requires |p| == 65536
    ensures Frames(PrintAll([Response()])) == [Response()]
    ensures var w := Writing(Dialled([Response()]), p, Tick(1, Calm(), TimedOut, false),
        [Tick(0, Calm(), TimedOut, false)], false, decode);
      && w.outcome.Complete? && w.session.lost == 0 && w.session.peer.winConn == 0
      && w.session.handled == [Response()] && Grants(w.session.handled) == 0
      && DataBytes(DataOf(w.session.peer.output)) == 65536
  {
    hide DataOf, DataBytes, Print, Handled, Pass, Sound;
    ReadsBack([Response()]);
    var v, ticks := Dialled([Response()]), [Tick(0, Calm(), TimedOut, false)];
    ResponseOpens(v, decode);
    var r := Pass(v, Calm()(0), decode);
    assert Passes(v, 1, 0, Calm(), decode) == r && Passes(r, 0, 0, Calm(), decode) == r;
    assert r.handled == [Response()];
    assert p[0..0 + 65536] == p;
    WholeWrite(r, p, ticks[0], decode);
    DialledIsSound([Response()]);
    WritingDelivers(v, p, Tick(1, Calm(), TimedOut, false), ticks, false, decode);
    GrantsGrow([], Response());
    assert [] + [Response()] == [Response()];
    assert Grants([Response()]) == 0;
    var w := Writing(v, p, Tick(1, Calm(), TimedOut, false), ticks, false, decode);
    assert w == Sending(r, [], p, 0, ticks, 0, decode);
    assert w.outcome.Complete? && w.session.lost == 0;
    assert w.session.peer.winConn == 0 && w.session.handled == [Response()];
    SoundIsConserved(w.session);
  }

  lemma SoundIsConserved(v: Session)
    requires Sound(v)
    ensures Conserved(v)
  {
  }

  /** With enough credit and no maximum frame size, one pass sends the whole of p in one frame. */
  lemma WholeWrite(r: Session, p: Text, tick: Tick, decode: Text -> Decoded)
    requires r.peer.maxFrameSize == 0 && 1 <= |p| <= r.peer.winConn && |p| <= r.peer.winStream
    requires tick.frames == 0 && !tick.writeFails
    ensures Sending(r, [], p, 0, [tick], 0, decode) == Written(FrameSent(r, p), [DebitFor(r.peer, p)], |p|, Complete)
  {
    hide Sound, Handled, Pass, DataFrame;
    assert Passes(r, 0, 0, tick.env, decode) == r;
    assert p[0..0 + |p|] == p;
    assert [] + [DebitFor(r.peer, p)] == [DebitFor(r.peer, p)];
  }

  /** An update of 2^24 bytes for the connection (0) or the stream (1). */
  function Update(id: int): Incoming
    requires id == 0 || id == 1
  {
    Frame(FRAME_WINDOW_UPDATE, 0, id, BigEndian(TWO_TO_THE_24, 4))
  }

  lemma UpdateGrants(v: Session, id: int, k: nat, decode: Text -> Decoded)
    requires id == 0 || id == 1
    requires v.frames != [] && v.frames[0] == Update(id)
    ensures var n := Pass(v, Calm()(k), decode);
      && n.frames == v.frames[1..] && n.stopped == v.stopped
      && n.peer.handshake == v.peer.handshake && n.peer.closed == v.peer.closed && n.peer.output == v.peer.output
      && n.peer.winConn == v.peer.winConn + (if id == 0 then TWO_TO_THE_24 else 0)
      && n.peer.winStream == v.peer.winStream + (if id == 1 then TWO_TO_THE_24 else 0)
      && n.peer.maxFrameSize == v.peer.maxFrameSize
  {
    hide FromBigEndian, BigEndian;
    BigEndianRoundTrip(TWO_TO_THE_24, 4);
    assert Power256(4) == TWO_TO_THE_32;
  }

  /** A run with a frame that cannot be read back: the upstream answers, grants 2^24 bytes on both
      levels and announces no maximum, and one call of 2^24 bytes sends them all in one frame. */
  lemma OversizedRun(p: Text, decode: Text -> Decoded, rest: Text)
    requires |p| == TWO_TO_THE_24
    ensures Frames(PrintAll([Response(), Update(0), Update(1)])) == [Response(), Update(0), Update(1)]
    ensures var v := Dialled([Response(), Update(0), Update(1)]);
      var w := Writing(v, p, Tick(3, Calm(), TimedOut, false), [Tick(0, Calm(), TimedOut, false)], false, decode);
      && w.outcome.Complete? && w.session.peer.output == [DataFrame(p)]
      && Parse(DataFrame(p) + rest) != Some((Frame(FRAME_DATA, 0, 1, p), rest))
  {
    hide DataFrame, Print, Handled, Pass, BigEndian, Parse;
    ReadsBack([Response(), Update(0), Update(1)]);
    var v, ticks := Dialled([Response(), Update(0), Update(1)]), [Tick(0, Calm(), TimedOut, false)];
    ResponseOpens(v, decode);
    var a := Pass(v, Calm()(0), decode);
    UpdateGrants(a, 0, 1, decode);
    var b := Pass(a, Calm()(1), decode);
    UpdateGrants(b, 1, 2, decode);
    var r := Pass(b, Calm()(2), decode);
    assert Passes(r, 0, 3, Calm(), decode) == r && Passes(b, 1, 2, Calm(), decode) == r;
    assert Passes(a, 2, 1, Calm(), decode) == r && Passes(v, 3, 0, Calm(), decode) == r;
    WholeWrite(r, p, ticks[0], decode);
    TooLongToPrint(p, rest);
    assert [] + [DataFrame(p)] == [DataFrame(p)];
  }

  lemma TooLongToPrint(p: Text, rest: Text)
    requires |p| >= TWO_TO_THE_24
    ensures Parse(DataFrame(p) + rest) != Some((Frame(FRAME_DATA, 0, 1, p), rest))
  {
    hide Parse, Print;
    PrintParse(Frame(FRAME_DATA, 0, 1, p), rest);
  }

  lemma DialledIsSound(frames: seq<Incoming>)
    ensures Sound(Dialled(frames))
  {
  }

  lemma ReadsBack(fs: seq<Incoming>)
    requires forall f :: f in fs ==> Encodable(f)
    ensures Frames(PrintAll(fs)) == fs
  {
    PrintedFramesReadBack(fs, []);
    assert PrintAll(fs) + [] == PrintAll(fs);
  }
}
