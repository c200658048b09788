/**
 The HTTP/2 connection as the client engine sees it: stream states, send windows, the
 frames queued for the peer and the effects of the peer's frames. Header compression and
 receive windows are not modelled; a peer frame that violates a rule kept by those parts
 shows up as an error event.
 */
module Http2Connections {
  import opened Text

  const MAX_WINDOW: int := 0x7FFF_FFFF
  const DEFAULT_WINDOW: int := 65535
  const CLOSED_RETAINED: nat := 16

  datatype StreamState = Idle | Open | HalfClosedLocal | HalfClosedRemote | Closed

  /** `notified`: the closed callback was made. */
  datatype Stream = Stream(state: StreamState, window: int, initial: int, notified: bool)

  datatype Phase = AwaitingPreface | AwaitingSettings | Running | GoAwayReceived | Dead

  /** A frame queued for the peer; SETTINGS, WINDOW_UPDATE, PING and GOAWAY are housekeeping. */
  datatype Frame =
    | HeadersFrame(id: nat, endStream: bool)
    | DataFrame(id: nat, payload: string, endStream: bool)
    | RstFrame(id: nat)
    | Housekeeping

  /** The range SETTINGS_MAX_FRAME_SIZE is held to. */
  type FrameSize = n: int | 16384 <= n <= 16777215 witness 16384

  datatype Peer = Peer(initialWindow: int, maxFrameSize: FrameSize, maxConcurrent: nat)

  datatype Conn = Conn(
    phase: Phase,
    streams: map<nat, Stream>,
    window: int,
    peer: Peer,
    active: int,
    goAwayLast: nat,
    localMaxConcurrent: nat,
    closedIds: seq<nat>,   // closed streams still kept, oldest first
    output: seq<Frame>)

  function FreshConn(localMaxConcurrent: nat): Conn {
    Conn(AwaitingPreface, map[], DEFAULT_WINDOW, Peer(DEFAULT_WINDOW, 16384, 100), 0, 0, localMaxConcurrent, [], [])
  }

  type Block = seq<(string, string)>

  /** What the connection tells the engine. */
  datatype Call =
    | HeadersCall(id: nat, block: Block, endStream: bool)
    | DataCall(id: nat, data: string, endStream: bool)
    | ResetCall(id: nat)
    | ClosedCall(id: nat)
    | GoAwayCall(last: nat)

  /** What the peer can do. The last three stand for everything the model leaves to other parts. */
  datatype PeerFrame =
    | WindowUpdate(id: nat, increment: nat)
    | InitialWindowSetting(value: nat, reached: set<nat>)   // the streams reached before one that does not fit
    | MaxFrameSizeSetting(value: nat)
    | MaxConcurrentSetting(value: nat)
    | OtherSettings(ack: bool)   // entries of no effect here or none, or a mere acknowledgement of ours
    | HeadersIn(id: nat, block: Block, endStream: bool)
    | DataIn(id: nat, data: string, endStream: bool)
    | RstIn(id: nat)
    | GoAwayIn(last: nat)
    | Answered
    | StreamViolation(id: nat)
    | ConnectionViolation

  datatype Result = Result(conn: Conn, ok: bool)
  datatype Received = Received(conn: Conn, calls: seq<Call>, ok: bool)

  // ---------------------------------------------------------------- stream states

  predicate CanSend(s: StreamState) { s == Open || s == HalfClosedRemote }

  predicate CanReceive(s: StreamState) { s == Open || s == HalfClosedLocal }

  /** Our side of the stream is finished. */
  predicate SendClosed(s: StreamState) { s == HalfClosedLocal || s == Closed }

  function OnSendHeaders(s: StreamState, endStream: bool): Option<StreamState> {
    match s
    case Idle => Some(if endStream then HalfClosedLocal else Open)
    case Open => Some(if endStream then HalfClosedLocal else Open)
    case HalfClosedRemote => Some(if endStream then Closed else HalfClosedRemote)
    case _ => None
  }

  function OnSendData(s: StreamState, endStream: bool): StreamState
    requires CanSend(s)
  {
    if !endStream then s else if s == Open then HalfClosedLocal else Closed
  }

  function OnReceiveHeaders(s: StreamState, endStream: bool): Option<StreamState> {
    match s
    case Idle => Some(if endStream then HalfClosedRemote else Open)
    case Open => Some(if endStream then HalfClosedRemote else Open)
    case HalfClosedLocal => Some(if endStream then Closed else HalfClosedLocal)
    case _ => None
  }

  function OnReceiveData(s: StreamState, endStream: bool): StreamState
    requires CanReceive(s)
  {
    if !endStream then s else if s == Open then HalfClosedRemote else Closed
  }

  /** The connection only queued frames that carry no data and end no stream. */
  ghost predicate QuietlyFollows(before: Conn, after: Conn) {
    && before.output <= after.output
    && forall i :: |before.output| <= i < |after.output| ==> after.output[i].RstFrame? || after.output[i].Housekeeping?
  }

  // --------------------------------------------------------------------- sending

  predicate CanCreateStreams(c: Conn) {
    c.active < c.peer.maxConcurrent && (c.phase == Running || c.phase == AwaitingSettings)
  }

  function SendPreface(c: Conn): Conn {
    if c.phase == AwaitingPreface
    then c.(phase := AwaitingSettings, output := c.output + [Housekeeping])
    else c
  }

  /** Request headers or trailers: a HEADERS frame, opening the stream if it is new. */
  function SendHeaders(c: Conn, id: nat, endStream: bool): Result {
    if id !in c.streams && !CanCreateStreams(c) then Result(c, false)
    else
      var isNew := id !in c.streams;
      var s := if isNew then Stream(Idle, c.peer.initialWindow, c.peer.initialWindow, false) else c.streams[id];
      match OnSendHeaders(s.state, endStream)
      case None => Result(c, false)
      case Some(state) =>
        Result(c.(streams := c.streams[id := s.(state := state)],
                  active := c.active + (if isNew then 1 else 0),
                  output := c.output + [HeadersFrame(id, endStream)]), true)
  }

  /** Cut a payload at the frame size; END_STREAM only on the last frame. */
  function Split(id: nat, data: string, maxFrameSize: FrameSize, endStream: bool): seq<Frame>
    decreases |data|
  {
    if |data| <= maxFrameSize then [DataFrame(id, data, endStream)]
    else [DataFrame(id, data[..maxFrameSize], false)] + Split(id, data[maxFrameSize..], maxFrameSize, endStream)
  }

  function DataFrames(id: nat, data: string, maxFrameSize: FrameSize, endStream: bool): seq<Frame>
  {
    if data == "" && !endStream then [] else Split(id, data, maxFrameSize, endStream)
  }

  function SendData(c: Conn, id: nat, data: string, endStream: bool): Result
  {
    if id !in c.streams || !CanSend(c.streams[id].state) then Result(c, false)
    else if c.streams[id].window < |data| || c.window < |data| then Result(c, false)
    else
      var s := c.streams[id];
      var s' := s.(state := OnSendData(s.state, endStream), window := s.window - |data|);
      Result(c.(streams := c.streams[id := s'],
                window := c.window - |data|,
                output := c.output + DataFrames(id, data, c.peer.maxFrameSize, endStream)), true)
  }

  /** Forget the longest-closed streams beyond those that are retained. */
  function PruneClosed(c: Conn): (r: Conn)
    ensures r.output == c.output && r.peer == c.peer && r.window == c.window && r.phase == c.phase
    decreases |c.closedIds|
  {
    if |c.closedIds| <= CLOSED_RETAINED then c
    else PruneClosed(c.(streams := c.streams - {c.closedIds[0]}, closedIds := c.closedIds[1..]))
  }

  /** Close a stream; the callback is made once. */
  function CloseStream(c: Conn, id: nat): (r: Received)
    requires id in c.streams
    ensures QuietlyFollows(c, r.conn)
    ensures r.conn.peer == c.peer && r.conn.window == c.window && r.conn.phase == c.phase
  {
    var s := c.streams[id];
    if s.notified then Received(c.(streams := c.streams[id := s.(state := Closed)]), [], true)
    else
      var closed := c.(streams := c.streams[id := s.(state := Closed, notified := true)],
                       active := c.active - 1, closedIds := c.closedIds + [id]);
      Received(PruneClosed(closed), [ClosedCall(id)], true)
  }

  function SendRst(c: Conn, id: nat): (r: Received)
    ensures QuietlyFollows(c, r.conn)
  {
    var c' := c.(output := c.output + [RstFrame(id)]);
    if id !in c.streams then Received(c', [], true)
    else
      var r := CloseStream(c', id);
      r.(calls := r.calls + [ResetCall(id)])
  }

  /** Account for a stream that our own END_STREAM closed. */
  function FinalizeSendClosed(c: Conn, id: nat): (r: Received)
    ensures QuietlyFollows(c, r.conn)
  {
    if id in c.streams && c.streams[id].state == Closed then CloseStream(c, id) else Received(c, [], true)
  }

  // ------------------------------------------------------------------- receiving

  function Die(c: Conn): (r: Received)
    ensures QuietlyFollows(c, r.conn)
  {
    Received(c.(phase := Dead, output := c.output + [Housekeeping]), [], false)
  }

  /** Any SETTINGS frame of the peer, an acknowledgement too, ends the wait for its settings. */
  function Opened(c: Conn): Conn { c.(phase := if c.phase == AwaitingSettings then Running else c.phase) }

  function AfterSetting(c: Conn): Conn { Opened(c).(output := c.output + [Housekeeping]) }

  function Shifted(s: Stream, initial: int): Stream { s.(window := s.window + initial - s.initial, initial := initial) }

  function ReceiveWindowUpdate(c: Conn, id: nat, increment: nat): (r: Received)
    ensures QuietlyFollows(c, r.conn)
  {
    if id == 0 then
      (if increment == 0 || c.window + increment > MAX_WINDOW then Die(c)
       else Received(c.(window := c.window + increment), [], true))
    else if increment == 0 then SendRst(c, id)
    else if id !in c.streams then Received(c, [], true)
    else if c.streams[id].window + increment > MAX_WINDOW then SendRst(c, id)
    else Received(c.(streams := c.streams[id := c.streams[id].(window := c.streams[id].window + increment)]), [], true)
  }

  /** The moved window is in range. */
  predicate Movable(s: Stream, initial: int) { 0 <= Shifted(s, initial).window <= MAX_WINDOW }

  /**
   A change of the initial window moves every stream's window by the difference, one stream
   after the other; the first that does not fit ends the connection, and those reached before
   it stay moved.
   */
  function ReceiveInitialWindow(c: Conn, value: nat, reached: set<nat>): (r: Received)
    ensures QuietlyFollows(c, r.conn)
  {
    if value > MAX_WINDOW then Die(c)
    else if exists id :: id in c.streams && !Movable(c.streams[id], value) then
      Die(c.(streams := map id | id in c.streams ::
               if id in reached && Movable(c.streams[id], value) then Shifted(c.streams[id], value) else c.streams[id]))
    else
      Received(AfterSetting(c.(streams := map id | id in c.streams :: Shifted(c.streams[id], value),
                               peer := c.peer.(initialWindow := value))), [], true)
  }

  /** The stream headers arrive on: a known one, or a new one. */
  function StreamFor(c: Conn, id: nat): Stream {
    if id in c.streams then c.streams[id] else Stream(Idle, c.peer.initialWindow, c.peer.initialWindow, false)
  }

  /** Headers that put their stream in a new state. */
  function TakeHeaders(c: Conn, id: nat, block: Block, endStream: bool, state: StreamState): (r: Received)
    ensures QuietlyFollows(c, r.conn) && r.conn.peer == c.peer && r.conn.window == c.window
  {
    var c' := c.(streams := c.streams[id := StreamFor(c, id).(state := state)],
                 active := c.active + (if id in c.streams then 0 else 1));
    var closing := if endStream && state == Closed then CloseStream(c', id) else Received(c', [], true);
    closing.(calls := [HeadersCall(id, block, endStream)] + closing.calls)
  }

  function ReceiveHeaders(c: Conn, id: nat, block: Block, endStream: bool): (r: Received)
    ensures QuietlyFollows(c, r.conn)
  {
    if id == 0 then Die(c)
    else if c.phase == GoAwayReceived && id > c.goAwayLast then Received(c, [], true)
    else if id !in c.streams && c.active >= c.localMaxConcurrent then Die(c)
    else
      match OnReceiveHeaders(StreamFor(c, id).state, endStream)
      case None => SendRst(c, id)
      case Some(state) => TakeHeaders(c, id, block, endStream, state)
  }

  function ReceiveData(c: Conn, id: nat, data: string, endStream: bool): (r: Received)
    ensures QuietlyFollows(c, r.conn)
  {
    if id == 0 then Die(c)
    else if id !in c.streams then Received(c, [], true)
    else if !CanReceive(c.streams[id].state) then SendRst(c, id)
    else
      var s := c.streams[id];
      var state := OnReceiveData(s.state, endStream);
      var c' := c.(streams := c.streams[id := s.(state := state)],
                   output := if data == "" then c.output else c.output + [Housekeeping, Housekeeping]);
      var closing := if endStream && state == Closed then CloseStream(c', id) else Received(c', [], true);
      closing.(calls := [DataCall(id, data, endStream)] + closing.calls)
  }

  function ReceiveRst(c: Conn, id: nat): (r: Received)
    ensures QuietlyFollows(c, r.conn)
  {
    if id == 0 then Die(c)
    else if id !in c.streams then Received(c, [], true)
    else
      var r := CloseStream(c, id);
      r.(calls := r.calls + [ResetCall(id)])
  }

  function Receive(c: Conn, f: PeerFrame): (r: Received)
    ensures QuietlyFollows(c, r.conn)
  {
    if c.phase == Dead then Received(c, [], false)
    else
      match f
      case WindowUpdate(id, increment) => ReceiveWindowUpdate(c, id, increment)
      case InitialWindowSetting(value, reached) => ReceiveInitialWindow(c, value, reached)
      case MaxFrameSizeSetting(value) =>
        if value < 16384 || value > 16777215 then Die(c)
        else Received(AfterSetting(c.(peer := c.peer.(maxFrameSize := value))), [], true)
      case MaxConcurrentSetting(value) => Received(AfterSetting(c.(peer := c.peer.(maxConcurrent := value))), [], true)
      case OtherSettings(ack) => Received(if ack then Opened(c) else AfterSetting(c), [], true)
      case HeadersIn(id, block, endStream) => ReceiveHeaders(c, id, block, endStream)
      case DataIn(id, data, endStream) => ReceiveData(c, id, data, endStream)
      case RstIn(id) => ReceiveRst(c, id)
      case GoAwayIn(last) =>
        Received(c.(phase := GoAwayReceived, goAwayLast := last), [GoAwayCall(last)], true)
      case Answered => Received(c.(output := c.output + [Housekeeping]), [], true)
      case StreamViolation(id) => SendRst(c, id)
      case ConnectionViolation => Die(c)
  }

  // ------------------------------------------------------------- what was sent

  /** The body bytes queued on a stream. */
  function DataOn(frames: seq<Frame>, id: nat): string {
    if frames == [] then ""
    else
      var f := frames[|frames| - 1];
      DataOn(frames[..|frames| - 1], id) + (if f.DataFrame? && f.id == id then f.payload else "")
  }

  /** All body bytes queued on the connection. */
  function DataBytes(frames: seq<Frame>): nat {
    if frames == [] then 0
    else
      var f := frames[|frames| - 1];
      DataBytes(frames[..|frames| - 1]) + (if f.DataFrame? then |f.payload| else 0)
  }

  predicate Ends(f: Frame, id: nat) { (f.HeadersFrame? || f.DataFrame?) && f.id == id && f.endStream }

  /** How often END_STREAM was queued on a stream. */
  function EndStreams(frames: seq<Frame>, id: nat): nat {
    if frames == [] then 0
    else EndStreams(frames[..|frames| - 1], id) + (if Ends(frames[|frames| - 1], id) then 1 else 0)
  }

  lemma Append(a: seq<Frame>, b: seq<Frame>, id: nat)
    ensures DataOn(a + b, id) == DataOn(a, id) + DataOn(b, id)
    ensures DataBytes(a + b) == DataBytes(a) + DataBytes(b)
    ensures EndStreams(a + b, id) == EndStreams(a, id) + EndStreams(b, id)
  {
    hide DataOn, DataBytes, EndStreams;
    AppendData(a, b, id);
    AppendCounts(a, b, id);
  }

  lemma {:induction false} AppendData(a: seq<Frame>, b: seq<Frame>, id: nat)
    ensures DataOn(a + b, id) == DataOn(a, id) + DataOn(b, id)
  {
    if b == [] {
      assert a + b == a;
    } else {
      AppendData(a, b[..|b| - 1], id);
      Chopped(a, b);
    }
  }

  lemma {:induction false} AppendCounts(a: seq<Frame>, b: seq<Frame>, id: nat)
    ensures DataBytes(a + b) == DataBytes(a) + DataBytes(b)
    ensures EndStreams(a + b, id) == EndStreams(a, id) + EndStreams(b, id)
  {
    hide Ends;
    if b == [] {
      assert a + b == a;
    } else {
      AppendCounts(a, b[..|b| - 1], id);
      Chopped(a, b);
    }
  }

  lemma Chopped(a: seq<Frame>, b: seq<Frame>)
    requires b != []
    ensures (a + b)[..|a + b| - 1] == a + b[..|b| - 1] && (a + b)[|a + b| - 1] == b[|b| - 1]
  {
  }

  lemma One(f: Frame, id: nat)
    ensures DataOn([f], id) == (if f.DataFrame? && f.id == id then f.payload else "")
    ensures DataBytes([f]) == (if f.DataFrame? then |f.payload| else 0)
    ensures EndStreams([f], id) == (if Ends(f, id) then 1 else 0)
  {
    assert [f][..0] == [];
  }

  /** Splitting loses nothing and ends the stream once if asked to. */
  lemma {:induction false} SplitMeaning(id: nat, data: string, maxFrameSize: FrameSize, endStream: bool, other: nat)
    ensures var frames := Split(id, data, maxFrameSize, endStream);
            && DataOn(frames, other) == (if other == id then data else "")
            && DataBytes(frames) == |data|
            && EndStreams(frames, other) == (if other == id && endStream then 1 else 0)
    decreases |data|
  {
    hide DataOn, DataBytes, EndStreams;
    if |data| <= maxFrameSize {
      One(DataFrame(id, data, endStream), other);
    } else {
      var first, rest := DataFrame(id, data[..maxFrameSize], false), data[maxFrameSize..];
      SplitMeaning(id, rest, maxFrameSize, endStream, other);
      One(first, other);
      Append([first], Split(id, rest, maxFrameSize, endStream), other);
      assert data == data[..maxFrameSize] + rest;
    }
  }

  predicate PieceOf(f: Frame, id: nat, maxFrameSize: FrameSize, endStream: bool) {
    f.DataFrame? && f.id == id && |f.payload| <= maxFrameSize && f.endStream == endStream
  }

  /** Every piece fits the frame size; END_STREAM rides on the last one only. */
  lemma {:induction false} SplitShape(id: nat, data: string, maxFrameSize: FrameSize, endStream: bool)
    ensures var frames := Split(id, data, maxFrameSize, endStream);
            && frames != []
            && forall i :: 0 <= i < |frames| ==> PieceOf(frames[i], id, maxFrameSize, endStream && i == |frames| - 1)
    decreases |data|
  {
    if |data| > maxFrameSize {
      var rest := Split(id, data[maxFrameSize..], maxFrameSize, endStream);
      SplitShape(id, data[maxFrameSize..], maxFrameSize, endStream);
      var frames := Split(id, data, maxFrameSize, endStream);
      forall i | 0 <= i < |frames| ensures PieceOf(frames[i], id, maxFrameSize, endStream && i == |frames| - 1) {
        assert i > 0 ==> frames[i] == rest[i - 1];
      }
    }
  }

  // ------------------------------------------------------------------ invariants

  /** Windows are never negative nor too large, and the retained closed streams are just that. */
  ghost predicate Sound(c: Conn) {
    && 0 <= c.window <= MAX_WINDOW && 0 <= c.peer.initialWindow <= MAX_WINDOW
    && (forall id :: id in c.streams ==> StreamSound(c.streams[id], Announced(c)))
    && 0 !in c.streams && Retained(c)
  }

  /** The initial window that every stream has been moved to; a connection that died may have moved some only. */
  function Announced(c: Conn): Option<int> { if c.phase == Dead then None else Some(c.peer.initialWindow) }

  ghost predicate StreamSound(s: Stream, initial: Option<int>) {
    && 0 <= s.window <= MAX_WINDOW && (initial.Some? ==> s.initial == initial.value)
    && (s.notified ==> s.state == Closed)
  }

  ghost predicate Retained(c: Conn) {
    && |c.closedIds| <= CLOSED_RETAINED
    && (forall i :: 0 <= i < |c.closedIds| ==> WasClosed(c, c.closedIds[i]))
    && (forall i, j :: 0 <= i < j < |c.closedIds| ==> c.closedIds[i] != c.closedIds[j])
  }

  ghost predicate WasClosed(c: Conn, id: nat) { id in c.streams && c.streams[id].notified }

  /** What the peer's frame adds to the send window of a stream, or of the connection for stream 0. */
  function Granted(c: Conn, f: PeerFrame, id: nat): nat {
    if c.phase == Dead || !f.WindowUpdate? || f.id != id then 0
    else if id == 0 then (if c.window + f.increment <= MAX_WINDOW then f.increment else 0)
    else if id in c.streams && c.streams[id].window + f.increment <= MAX_WINDOW then f.increment
    else 0
  }

  /** Window left plus bytes spent, for the connection. */
  function Total(c: Conn): int { c.window + DataBytes(c.output) }

  /** Window left above the initial window. */
  function Balance(s: Stream): int { s.window - s.initial }

  lemma {:induction false} QuietFrames(frames: seq<Frame>, id: nat)
    requires forall i :: 0 <= i < |frames| ==> frames[i].RstFrame? || frames[i].Housekeeping?
    ensures DataOn(frames, id) == "" && DataBytes(frames) == 0 && EndStreams(frames, id) == 0
  {
    if frames != [] { QuietFrames(frames[..|frames| - 1], id); }
  }

  lemma QuietMeaning(before: Conn, after: Conn, id: nat)
    requires QuietlyFollows(before, after)
    ensures DataOn(after.output, id) == DataOn(before.output, id)
    ensures DataBytes(after.output) == DataBytes(before.output)
    ensures EndStreams(after.output, id) == EndStreams(before.output, id)
  {
    hide DataOn, DataBytes, EndStreams;
    var extra := after.output[|before.output|..];
    assert after.output == before.output + extra;
    QuietFrames(extra, id);
    Append(before.output, extra, id);
  }

  // ------------------------------------------------------- one step, seen from a stream

  /**
   A stream across a step that sends nothing of ours. It is never reopened for sending, its
   window is accounted for, and it disappears only after its closed callback was made.
   */
  ghost predicate StreamStep(c: Conn, c': Conn, calls: seq<Call>, id: nat, granted: nat) {
    && (id in c'.streams ==> StreamSound(c'.streams[id], Announced(c')))
    && (id in c.streams && id in c'.streams ==>
          && (SendClosed(c.streams[id].state) ==> SendClosed(c'.streams[id].state))
          && Balance(c'.streams[id]) == Balance(c.streams[id]) + granted)
    && (id !in c.streams && id in c'.streams ==> Balance(c'.streams[id]) == 0)
    && (id in c.streams && !c.streams[id].notified ==>
          id in c'.streams && (c'.streams[id].notified ==> ClosedCall(id) in calls))
  }

  /** Pruning, from a state that just retained one more. */
  lemma PruneStep(c: Conn, id: nat)
    requires |c.closedIds| <= CLOSED_RETAINED + 1
    requires forall i :: 0 <= i < |c.closedIds| ==> WasClosed(c, c.closedIds[i])
    requires forall i, j :: 0 <= i < j < |c.closedIds| ==> c.closedIds[i] != c.closedIds[j]
    ensures var c' := PruneClosed(c);
            && Retained(c')
            && (id in c'.streams ==> id in c.streams && c'.streams[id] == c.streams[id])
            && (id in c.streams && id !in c'.streams ==>
                  c.streams[id].notified && |c.closedIds| > CLOSED_RETAINED && id == c.closedIds[0])
  {
    if |c.closedIds| == CLOSED_RETAINED + 1 {
      var c1 := c.(streams := c.streams - {c.closedIds[0]}, closedIds := c.closedIds[1..]);
      assert PruneClosed(c) == PruneClosed(c1) == c1;
      assert WasClosed(c, c.closedIds[0]);
      forall i | 0 <= i < |c1.closedIds| ensures WasClosed(c1, c1.closedIds[i]) {
        assert c1.closedIds[i] == c.closedIds[i + 1] && WasClosed(c, c.closedIds[i + 1]);
      }
    }
  }

  lemma CloseStep(c: Conn, id: nat, other: nat)
    requires Sound(c) && id in c.streams
    ensures var r := CloseStream(c, id);
            && StreamStep(c, r.conn, r.calls, other, 0) && Retained(r.conn)
            && 0 !in r.conn.streams
  {
    hide PruneClosed, QuietlyFollows;
    var s := c.streams[id];
    if s.notified {
      var c' := CloseStream(c, id).conn;
      assert forall i :: 0 <= i < |c.closedIds| ==> WasClosed(c, c.closedIds[i]) && WasClosed(c', c.closedIds[i]);
    } else {
      var c1 := c.(streams := c.streams[id := s.(state := Closed, notified := true)],
                   active := c.active - 1, closedIds := c.closedIds + [id]);
      forall i | 0 <= i < |c1.closedIds| ensures WasClosed(c1, c1.closedIds[i]) {
        if i < |c.closedIds| { assert WasClosed(c, c.closedIds[i]); }
      }
      forall i, j | 0 <= i < j < |c1.closedIds| ensures c1.closedIds[i] != c1.closedIds[j] {
        if j == |c.closedIds| { assert WasClosed(c, c.closedIds[i]); }
      }
      PruneStep(c1, other);
      PruneStep(c1, 0);
      if |c1.closedIds| > 1 { assert c1.closedIds[0] == c.closedIds[0] && WasClosed(c, c.closedIds[0]); }
    }
  }

  /** A step that changes one stream without closing it, or creates it. */
  lemma PutStep(c: Conn, c': Conn, id: nat, s: Stream, other: nat)
    requires Sound(c) && c'.streams == c.streams[id := s] && id != 0
    requires c'.closedIds == c.closedIds && c'.peer == c.peer && c'.phase == c.phase && 0 <= c'.window <= MAX_WINDOW
    requires StreamSound(s, Announced(c))
    requires if id in c.streams
             then s.notified == c.streams[id].notified && (SendClosed(c.streams[id].state) ==> SendClosed(s.state))
             else !s.notified && Balance(s) == 0
    ensures Sound(c')
    ensures var granted := if id in c.streams then Balance(s) - Balance(c.streams[id]) else 0;
            granted >= 0 ==> StreamStep(c, c', [], other, if other == id then granted else 0)
  {
    assert forall i :: 0 <= i < |c.closedIds| ==> WasClosed(c, c.closedIds[i]) && WasClosed(c', c.closedIds[i]);
  }

  /** Closing a stream right after changing it. */
  lemma PutThenClose(c: Conn, b: Conn, id: nat, s: Stream, calls: seq<Call>, other: nat)
    requires Sound(c) && b.streams == c.streams[id := s] && id != 0 && id in c.streams
    requires b.closedIds == c.closedIds && b.peer == c.peer && b.phase == c.phase && b.window == c.window
    requires StreamSound(s, Announced(c)) && Balance(s) == Balance(c.streams[id])
    requires s.notified == c.streams[id].notified && (SendClosed(c.streams[id].state) ==> SendClosed(s.state))
    requires forall k :: k in CloseStream(b, id).calls ==> k in calls
    ensures var r := CloseStream(b, id);
            StreamStep(c, r.conn, calls, other, 0) && Retained(r.conn) && 0 !in r.conn.streams
  {
    hide CloseStream, QuietlyFollows;
    PutStep(c, b, id, s, other);
    CloseStep(b, id, other);
    CloseMakesNone(b, id, other);
  }

  lemma CloseMakesNone(c: Conn, id: nat, other: nat)
    requires Sound(c) && id in c.streams
    ensures other in CloseStream(c, id).conn.streams ==> other in c.streams
  {
    hide QuietlyFollows;
    PruneKeepsOut(c.(streams := c.streams[id := c.streams[id].(state := Closed, notified := true)],
                     active := c.active - 1, closedIds := c.closedIds + [id]), other);
  }

  lemma {:induction false} PruneKeepsOut(c: Conn, id: nat)
    ensures id in PruneClosed(c).streams ==> id in c.streams
    decreases |c.closedIds|
  {
    if |c.closedIds| > CLOSED_RETAINED {
      PruneKeepsOut(c.(streams := c.streams - {c.closedIds[0]}, closedIds := c.closedIds[1..]), id);
    }
  }

  /** What a step leaves: the stream stepped, and the connection in order. */
  ghost predicate StepsTo(c: Conn, r: Received, id: nat, granted: nat) {
    && StreamStep(c, r.conn, r.calls, id, granted) && Retained(r.conn) && 0 !in r.conn.streams
  }

  lemma TakeHeadersStep(c: Conn, id: nat, block: Block, endStream: bool, state: StreamState, other: nat)
    requires Sound(c) && id != 0 && OnReceiveHeaders(StreamFor(c, id).state, endStream) == Some(state)
    ensures StepsTo(c, TakeHeaders(c, id, block, endStream, state), other, 0)
  {
    hide CloseStream, QuietlyFollows, Retained;
    var s := StreamFor(c, id).(state := state);
    var b := c.(streams := c.streams[id := s], active := c.active + (if id in c.streams then 0 else 1));
    PutStep(c, b, id, s, other);
    if state == Closed {
      PutThenClose(c, b, id, s, [HeadersCall(id, block, endStream)] + CloseStream(b, id).calls, other);
    }
  }

  lemma ReceiveHeadersStep(c: Conn, id: nat, block: Block, endStream: bool, other: nat)
    requires Sound(c)
    ensures var r := ReceiveHeaders(c, id, block, endStream);
            StepsTo(c, r, other, 0) && r.conn.peer == c.peer && r.conn.window == c.window
  {
    hide QuietlyFollows, SendRst, TakeHeaders, StepsTo, Retained;
    SameStep(c, other);
    RstStep(c, id, other);
    RstKeepsRest(c, id);
    var state := OnReceiveHeaders(StreamFor(c, id).state, endStream);
    if id != 0 && state.Some? { TakeHeadersStep(c, id, block, endStream, state.value, other); }
  }

  ghost predicate SameStreams(c: Conn, c': Conn) {
    && c'.streams == c.streams && c'.closedIds == c.closedIds && c'.peer.initialWindow == c.peer.initialWindow
    && (c'.phase != Dead ==> c.phase != Dead)
  }

  /** A step that leaves the streams alone. */
  lemma SameStep(c: Conn, other: nat)
    requires Sound(c)
    ensures forall r: Received :: SameStreams(c, r.conn) ==> StepsTo(c, r, other, 0)
  {
    forall r: Received | SameStreams(c, r.conn) ensures StepsTo(c, r, other, 0) {
      assert forall i :: 0 <= i < |c.closedIds| ==> WasClosed(c, c.closedIds[i]) && WasClosed(r.conn, c.closedIds[i]);
    }
  }

  lemma ReceiveDataStep(c: Conn, id: nat, data: string, endStream: bool, other: nat)
    requires Sound(c)
    ensures var r := ReceiveData(c, id, data, endStream);
            StepsTo(c, r, other, 0) && r.conn.peer == c.peer && r.conn.window == c.window
  {
    hide CloseStream, QuietlyFollows;
    RstStep(c, id, other);
    SameStep(c, other);
    if id != 0 && id in c.streams && CanReceive(c.streams[id].state) {
      var s := c.streams[id].(state := OnReceiveData(c.streams[id].state, endStream));
      var b := c.(streams := c.streams[id := s],
                  output := if data == "" then c.output else c.output + [Housekeeping, Housekeeping]);
      PutStep(c, b, id, s, other);
      if s.state == Closed {
        PutThenClose(c, b, id, s, [DataCall(id, data, endStream)] + CloseStream(b, id).calls, other);
      }
    }
  }

  lemma ReceiveInitialWindowStep(c: Conn, value: nat, reached: set<nat>, other: nat)
    requires Sound(c)
    ensures var r := ReceiveInitialWindow(c, value, reached);
            && StepsTo(c, r, other, 0) && r.conn.window == c.window
            && 0 <= r.conn.peer.initialWindow <= MAX_WINDOW
  {
    hide QuietlyFollows;
    SameStep(c, other);
    var c' := ReceiveInitialWindow(c, value, reached).conn;
    assert forall i :: 0 <= i < |c.closedIds| ==> WasClosed(c, c.closedIds[i]) && WasClosed(c', c.closedIds[i]);
  }

  lemma ReceiveWindowUpdateStep(c: Conn, id: nat, increment: nat, other: nat)
    requires Sound(c) && c.phase != Dead && other != 0
    ensures var r := ReceiveWindowUpdate(c, id, increment);
            && StepsTo(c, r, other, Granted(c, WindowUpdate(id, increment), other)) && r.conn.peer == c.peer
            && r.conn.window == c.window + Granted(c, WindowUpdate(id, increment), 0) <= MAX_WINDOW
  {
    hide CloseStream, QuietlyFollows;
    RstStep(c, id, other);
    SameStep(c, other);
    if id != 0 && id in c.streams && c.streams[id].window + increment <= MAX_WINDOW {
      var s := c.streams[id].(window := c.streams[id].window + increment);
      PutStep(c, c.(streams := c.streams[id := s]), id, s, other);
    }
  }

  lemma RstStep(c: Conn, id: nat, other: nat)
    requires Sound(c)
    ensures StepsTo(c, SendRst(c, id), other, 0) && StepsTo(c, ReceiveRst(c, id), other, 0)
    ensures StepsTo(c, FinalizeSendClosed(c, id), other, 0)
  {
    hide CloseStream, QuietlyFollows;
    SameStep(c, other);
    if id in c.streams {
      var b := c.(output := c.output + [RstFrame(id)]);
      var s := c.streams[id];
      assert c.streams[id := s] == c.streams;
      CloseStep(c, id, other);
      PutThenClose(c, b, id, s, CloseStream(b, id).calls + [ResetCall(id)], other);
      PutThenClose(c, c, id, s, CloseStream(c, id).calls + [ResetCall(id)], other);
    }
  }

  /** One peer frame: every stream steps, and the connection window grows by what was granted. */
  lemma ReceiveStep(c: Conn, f: PeerFrame, id: nat)
    requires Sound(c) && id != 0
    ensures var r := Receive(c, f);
            && StepsTo(c, r, id, Granted(c, f, id))
            && r.conn.window == c.window + Granted(c, f, 0) <= MAX_WINDOW
            && 0 <= r.conn.peer.initialWindow <= MAX_WINDOW
  {
    hide QuietlyFollows, ReceiveHeaders, ReceiveData, ReceiveInitialWindow, ReceiveWindowUpdate, SendRst, ReceiveRst;
    SameStep(c, id);
    match f
    case WindowUpdate(i, increment) => if c.phase != Dead { ReceiveWindowUpdateStep(c, i, increment, id); }
    case InitialWindowSetting(value, reached) => ReceiveInitialWindowStep(c, value, reached, id);
    case HeadersIn(i, block, endStream) => ReceiveHeadersStep(c, i, block, endStream, id);
    case DataIn(i, data, endStream) => ReceiveDataStep(c, i, data, endStream, id);
    case RstIn(i) => RstStep(c, i, id); RstKeepsRest(c, i);
    case StreamViolation(i) => RstStep(c, i, id); RstKeepsRest(c, i);
    case _ =>
  }

  lemma RstKeepsRest(c: Conn, id: nat)
    ensures SendRst(c, id).conn.peer == c.peer && SendRst(c, id).conn.window == c.window
    ensures ReceiveRst(c, id).conn.peer == c.peer && ReceiveRst(c, id).conn.window == c.window
    ensures FinalizeSendClosed(c, id).conn.peer == c.peer && FinalizeSendClosed(c, id).conn.window == c.window
  {
  }

  // ------------------------------------------------------------------------ runs

  datatype Step =
    | Preface
    | Headers(id: nat, endStream: bool)
    | Data(id: nat, data: string, endStream: bool)
    | Reset(id: nat)
    | Finalize(id: nat)
    | FromPeer(f: PeerFrame)

  /** A step, with the callbacks it makes. */
  function Act(c: Conn, s: Step): Received {
    match s
    case Preface => Received(SendPreface(c), [], true)
    case Headers(id, endStream) => var r := SendHeaders(c, id, endStream); Received(r.conn, [], r.ok)
    case Data(id, data, endStream) => var r := SendData(c, id, data, endStream); Received(r.conn, [], r.ok)
    case Reset(id) => SendRst(c, id)
    case Finalize(id) => FinalizeSendClosed(c, id)
    case FromPeer(f) => Receive(c, f)
  }

  /** Stream 0 is the connection itself; the client opens no stream there. */
  predicate Proper(s: Step) { s.Headers? || s.Data? ==> s.id != 0 }

  function GrantedBy(c: Conn, s: Step, id: nat): nat { if s.FromPeer? then Granted(c, s.f, id) else 0 }

  lemma SendHeadersMeaning(c: Conn, id: nat, endStream: bool, other: nat)
    requires Sound(c) && id != 0
    ensures var r := SendHeaders(c, id, endStream);
            && (!r.ok ==> r.conn == c)
            && (r.ok ==> id !in c.streams || !SendClosed(c.streams[id].state))
            && (r.ok ==> id in r.conn.streams && SendClosed(r.conn.streams[id].state) == endStream)
            && (r.ok ==> !r.conn.streams[id].notified)
            && DataOn(r.conn.output, other) == DataOn(c.output, other)
            && DataBytes(r.conn.output) == DataBytes(c.output)
            && EndStreams(r.conn.output, other) ==
                 EndStreams(c.output, other) + (if r.ok && endStream && other == id then 1 else 0)
  {
    hide DataOn, DataBytes, EndStreams;
    Append(c.output, [HeadersFrame(id, endStream)], other);
    One(HeadersFrame(id, endStream), other);
  }

  /** DATA goes out whole or not at all, and never beyond either window. */
  lemma SendDataMeaning(c: Conn, id: nat, data: string, endStream: bool, other: nat)
    requires Sound(c)
    ensures var r := SendData(c, id, data, endStream);
            && (r.ok <==> id in c.streams && CanSend(c.streams[id].state)
                          && |data| <= c.window && |data| <= c.streams[id].window)
            && (!r.ok ==> r.conn == c)
            && (r.ok ==> id in r.conn.streams && SendClosed(r.conn.streams[id].state) == endStream)
            && (r.ok ==> !r.conn.streams[id].notified)
            && DataOn(r.conn.output, other) == DataOn(c.output, other) + (if r.ok && other == id then data else "")
            && DataBytes(r.conn.output) == DataBytes(c.output) + (if r.ok then |data| else 0)
            && EndStreams(r.conn.output, other) ==
                 EndStreams(c.output, other) + (if r.ok && endStream && other == id then 1 else 0)
  {
    hide DataOn, DataBytes, EndStreams, Split;
    var max := c.peer.maxFrameSize;
    SplitMeaning(id, data, max, endStream, other);
    NoFrames(other);
    Append(c.output, DataFrames(id, data, max, endStream), other);
  }

  lemma NoFrames(id: nat)
    ensures DataOn([], id) == "" && DataBytes([]) == 0 && EndStreams([], id) == 0
  {
  }

  /** The accounts of one stream and of the connection across a step. */
  ghost predicate Accounted(c: Conn, c': Conn, id: nat, streamGrant: nat, connGrant: nat) {
    && (id in c'.streams ==> StreamSound(c'.streams[id], Announced(c')))
    && |DataOn(c'.output, id)| >= |DataOn(c.output, id)|
    && (id in c.streams && id in c'.streams ==>
          Balance(c'.streams[id]) + |DataOn(c'.output, id)| ==
          Balance(c.streams[id]) + |DataOn(c.output, id)| + streamGrant)
    && (id !in c.streams && id in c'.streams ==>
          Balance(c'.streams[id]) == 0 && |DataOn(c'.output, id)| == |DataOn(c.output, id)|)
    && Total(c') == Total(c) + connGrant && 0 <= c'.window <= MAX_WINDOW
    && 0 <= c'.peer.initialWindow <= MAX_WINDOW && 0 !in c'.streams && Retained(c')
  }

  lemma QuietAccounted(c: Conn, r: Received, id: nat, streamGrant: nat)
    requires Sound(c) && QuietlyFollows(c, r.conn) && StepsTo(c, r, id, streamGrant)
    requires 0 <= c.window <= r.conn.window <= MAX_WINDOW
    requires 0 <= r.conn.peer.initialWindow <= MAX_WINDOW
    ensures Accounted(c, r.conn, id, streamGrant, r.conn.window - c.window)
  {
    hide DataOn, DataBytes, QuietlyFollows, Retained;
    QuietMeaning(c, r.conn, id);
  }

  /** What headers change besides the output. */
  lemma HeadersPut(c: Conn, i: nat, endStream: bool)
    requires Sound(c) && i != 0 && SendHeaders(c, i, endStream).ok
    ensures var c' := SendHeaders(c, i, endStream).conn;
            && c'.peer == c.peer && c'.window == c.window && c'.closedIds == c.closedIds && c'.phase == c.phase
            && i in c'.streams && c'.streams == c.streams[i := c'.streams[i]]
            && StreamSound(c'.streams[i], Announced(c))
            && Balance(c'.streams[i]) == (if i in c.streams then Balance(c.streams[i]) else 0)
            && (i in c.streams ==> !c.streams[i].notified)
  {
    hide Retained;
  }

  lemma HeadersAccounted(c: Conn, i: nat, endStream: bool, id: nat)
    requires Sound(c) && i != 0
    ensures Accounted(c, SendHeaders(c, i, endStream).conn, id, 0, 0)
  {
    hide DataOn, DataBytes, Retained, SendHeaders, StreamSound, Balance;
    SendHeadersMeaning(c, i, endStream, id);
    var r := SendHeaders(c, i, endStream);
    if r.ok {
      HeadersPut(c, i, endStream);
      PutRetains(c, r.conn, i);
    }
  }

  lemma DataAccounted(c: Conn, i: nat, data: string, endStream: bool, id: nat)
    requires Sound(c) && i != 0
    ensures Accounted(c, SendData(c, i, data, endStream).conn, id, 0, 0)
  {
    hide DataOn, DataBytes, DataFrames, Retained;
    SendDataMeaning(c, i, data, endStream, id);
    var r := SendData(c, i, data, endStream);
    if r.ok { PutRetains(c, r.conn, i); }
  }

  lemma PutRetains(c: Conn, c': Conn, id: nat)
    requires Sound(c) && c'.closedIds == c.closedIds && id in c'.streams && id != 0
    requires c'.streams == c.streams[id := c'.streams[id]]
    requires id in c.streams ==> !c.streams[id].notified
    ensures Retained(c') && 0 !in c'.streams
  {
    assert forall i :: 0 <= i < |c.closedIds| ==> WasClosed(c, c.closedIds[i]) && WasClosed(c', c.closedIds[i]);
  }

  /** Any step keeps the windows in range and the accounts exact. */
  lemma StepAccounted(c: Conn, s: Step, id: nat)
    requires Sound(c) && Proper(s) && id != 0
    ensures Accounted(c, Act(c, s).conn, id, GrantedBy(c, s, id), GrantedBy(c, s, 0))
  {
    hide Accounted, SendHeaders, SendData, SendRst, FinalizeSendClosed, Receive, Granted, QuietlyFollows, StepsTo;
    SameStep(c, id);
    match s
    case Preface => PrefaceIsQuiet(c); QuietAccounted(c, Act(c, s), id, 0);
    case Headers(i, endStream) => HeadersAccounted(c, i, endStream, id);
    case Data(i, data, endStream) => DataAccounted(c, i, data, endStream, id);
    case Reset(i) => RstStep(c, i, id); RstKeepsRest(c, i); QuietAccounted(c, SendRst(c, i), id, 0);
    case Finalize(i) => RstStep(c, i, id); RstKeepsRest(c, i); QuietAccounted(c, FinalizeSendClosed(c, i), id, 0);
    case FromPeer(f) => ReceiveStep(c, f, id); QuietAccounted(c, Receive(c, f), id, Granted(c, f, id));
  }

  lemma PrefaceIsQuiet(c: Conn)
    ensures QuietlyFollows(c, SendPreface(c)) && SameStreams(c, SendPreface(c)) && SendPreface(c).window == c.window
  {
  }

  lemma StepSound(c: Conn, s: Step)
    requires Sound(c) && Proper(s)
    ensures Sound(Act(c, s).conn)
  {
    hide Act, GrantedBy, Retained, DataOn, DataBytes, StreamSound;
    var c' := Act(c, s).conn;
    StepAccounted(c, s, 1);
    forall id: nat | id in c'.streams ensures StreamSound(c'.streams[id], Announced(c')) {
      StepAccounted(c, s, id);
    }
  }

  /** The connection after a run of steps, however the peer's frames and ours interleave. */
  function After(c: Conn, steps: seq<Step>): Conn {
    if steps == [] then c else Act(After(c, steps[..|steps| - 1]), steps[|steps| - 1]).conn
  }

  /** Window increments accepted over a run by the connection. */
  function Grants(c: Conn, steps: seq<Step>): nat {
    if steps == [] then 0
    else
      var before := steps[..|steps| - 1];
      Grants(c, before) + GrantedBy(After(c, before), steps[|steps| - 1], 0)
  }

  /** The same for a stream, since it was last created. */
  function StreamGrants(c: Conn, steps: seq<Step>, id: nat): nat {
    if steps == [] || id !in After(c, steps[..|steps| - 1]).streams then 0
    else
      var before := steps[..|steps| - 1];
      StreamGrants(c, before, id) + GrantedBy(After(c, before), steps[|steps| - 1], id)
  }

  /** Bytes queued on an id before its stream was last created: none unless it was forgotten and came back. */
  function Earlier(c: Conn, steps: seq<Step>, id: nat): nat {
    if steps == [] then 0
    else
      var before := steps[..|steps| - 1];
      if id in After(c, before).streams then Earlier(c, before, id) else |DataOn(After(c, before).output, id)|
  }

  /** Everything a run keeps exact about one stream and the connection. */
  ghost predicate Exact(c: Conn, id: nat, earlier: nat, streamGrants: nat, connGrants: nat) {
    && Sound(c) && Total(c) == DEFAULT_WINDOW + connGrants
    && earlier <= |DataOn(c.output, id)|
    && (id in c.streams ==> Balance(c.streams[id]) + |DataOn(c.output, id)| == earlier + streamGrants)
  }

  lemma {:induction false} RunExact(localMaxConcurrent: nat, steps: seq<Step>, id: nat)
    requires id != 0 && forall i :: 0 <= i < |steps| ==> Proper(steps[i])
    ensures var c := FreshConn(localMaxConcurrent);
            Exact(After(c, steps), id, Earlier(c, steps, id), StreamGrants(c, steps, id), Grants(c, steps))
    decreases |steps|
  {
    hide Act, Granted, DataOn, DataBytes, StreamSound, Retained;
    var c := FreshConn(localMaxConcurrent);
    if steps == [] {
      FreshSound(localMaxConcurrent);
      NoFrames(id);
    } else {
      var before, s := steps[..|steps| - 1], steps[|steps| - 1];
      RunExact(localMaxConcurrent, before, id);
      StepSound(After(c, before), s);
      StepAccounted(After(c, before), s, id);
    }
  }

  lemma FreshSound(localMaxConcurrent: nat)
    ensures Sound(FreshConn(localMaxConcurrent))
  {
  }

  /**
   Flow control over every run, whatever is sent and received: the body bytes queued on the
   connection are exactly the default window plus the increments granted, less the window
   left; those queued on a stream since it was created, the initial window it was last moved
   to plus its increments, less its window left; no window is ever negative. Unless the
   connection has died, that initial window is the one the peer announced last.
   */
  lemma FlowControl(localMaxConcurrent: nat, steps: seq<Step>, id: nat)
    requires id != 0 && forall i :: 0 <= i < |steps| ==> Proper(steps[i])
    ensures var c := FreshConn(localMaxConcurrent);
            var c' := After(c, steps);
            && 0 <= c'.window && DataBytes(c'.output) == 65535 + Grants(c, steps) - c'.window
            && (id in c'.streams ==>
                  && 0 <= c'.streams[id].window
                  && |DataOn(c'.output, id)| - Earlier(c, steps, id) ==
                       c'.streams[id].initial + StreamGrants(c, steps, id) - c'.streams[id].window
                  && (c'.phase != Dead ==> c'.streams[id].initial == c'.peer.initialWindow))
  {
    hide After, Grants, DataOn, DataBytes, StreamGrants, Earlier, Retained;
    RunExact(localMaxConcurrent, steps, id);
  }

  // ----------------------------------------------------- a lowered initial window

  /** Bytes a stream has used of its allowance, and the increments it was granted. */
  function Spent(c: Conn, steps: seq<Step>, id: nat): int {
    |DataOn(After(c, steps).output, id)| - Earlier(c, steps, id) - StreamGrants(c, steps, id)
  }

  /**
   When a new initial window ends the connection, over every run: exactly when it is out of
   range, or some stream still held, a closed one too, has spent more than it would allow, or
   has been granted so much that its window would grow beyond the largest.
   */
  lemma SettingKills(localMaxConcurrent: nat, steps: seq<Step>, value: nat, reached: set<nat>)
    requires forall i :: 0 <= i < |steps| ==> Proper(steps[i])
    requires After(FreshConn(localMaxConcurrent), steps).phase != Dead
    ensures var c := FreshConn(localMaxConcurrent);
            var c' := After(c, steps);
            Receive(c', InitialWindowSetting(value, reached)).conn.phase == Dead <==>
              value > 0x7FFF_FFFF || exists id :: id in c'.streams && OutOfRange(value - Spent(c, steps, id))
  {
    hide After, Earlier, StreamGrants, DataOn, DataBytes, Retained, QuietlyFollows, Grants;
    var c := FreshConn(localMaxConcurrent);
    var c' := After(c, steps);
    RunExact(localMaxConcurrent, steps, 1);
    forall id | id in c'.streams
      ensures Movable(c'.streams[id], value) <==> !OutOfRange(value - Spent(c, steps, id)) {
      RunExact(localMaxConcurrent, steps, id);
    }
  }

  predicate OutOfRange(window: int) { window < 0 || window > 0x7FFF_FFFF }

  /** A closed stream that once sent 60000 bytes: an initial window of 1000 ends the connection. */
  lemma ClosedStreamKills(c: Conn, reached: set<nat>)
    requires c.phase == Running && c.streams == map[1 := Stream(Closed, 5535, 65535, true)]
    ensures Receive(c, InitialWindowSetting(1000, reached)).conn.phase == Dead
  {
    assert !Movable(c.streams[1], 1000);
  }

  // --------------------------------------------------------------- one stream at a time

  /** The highest stream id the client has opened. */
  function Top(steps: seq<Step>): nat {
    if steps == [] then 0
    else
      var top, s := Top(steps[..|steps| - 1]), steps[|steps| - 1];
      if s.Headers? && s.id > top then s.id else top
  }

  /** The closed callback came for that stream since. */
  predicate TopClosed(c: Conn, steps: seq<Step>) {
    steps != [] &&
    var before, s := steps[..|steps| - 1], steps[|steps| - 1];
    && !(s.Headers? && s.id > Top(before))
    && (TopClosed(c, before) || ClosedCall(Top(before)) in Act(After(c, before), s).calls)
  }

  /** A new stream has a higher id than any before; anything else goes to the last one, while it is not closed. */
  predicate Allowed(c: Conn, before: seq<Step>, s: Step) {
    match s
    case Headers(id, _) => id > Top(before) || (id == Top(before) > 0 && !TopClosed(c, before))
    case Data(id, _, _) => id == Top(before) > 0 && !TopClosed(c, before)
    case _ => true
  }

  /** The client uses one stream after the other, and none after it was told of its end. */
  predicate Orderly(c: Conn, steps: seq<Step>) {
    steps == [] || (Orderly(c, steps[..|steps| - 1]) && Allowed(c, steps[..|steps| - 1], steps[|steps| - 1]))
  }

  lemma {:induction false} OrderlyIsProper(c: Conn, steps: seq<Step>)
    requires Orderly(c, steps)
    ensures forall i :: 0 <= i < |steps| ==> Proper(steps[i])
  {
    if steps != [] {
      OrderlyIsProper(c, steps[..|steps| - 1]);
      forall i | 0 <= i < |steps| ensures Proper(steps[i]) {
        assert i < |steps| - 1 ==> steps[i] == steps[..|steps| - 1][i];
      }
    }
  }

  /** Nothing was queued on the id. */
  ghost predicate Blank(c: Conn, id: nat) { DataOn(c.output, id) == "" && EndStreams(c.output, id) == 0 }

  /** The stream in use: still blank, or held with its END_STREAM, if any, on record. */
  ghost predicate InHand(c: Conn, id: nat, earlier: nat) {
    Blank(c, id) ||
    (id in c.streams && !c.streams[id].notified && earlier == 0
     && (EndStreams(c.output, id) >= 1 ==> SendClosed(c.streams[id].state)))
  }

  /** What an orderly run keeps about an id. */
  ghost predicate Tidy(c: Conn, steps: seq<Step>, id: nat) {
    && EndStreams(After(c, steps).output, id) <= 1
    && (id > Top(steps) ==> Blank(After(c, steps), id))
    && (id == Top(steps) && !TopClosed(c, steps) ==> InHand(After(c, steps), id, Earlier(c, steps, id)))
  }

  /** One more step of ours on the stream in use, or a new one. */
  lemma OwnStepTidy(c: Conn, before: seq<Step>, s: Step, id: nat)
    requires Sound(After(c, before)) && Tidy(c, before, id) && Allowed(c, before, s) && Proper(s)
    requires (s.Headers? || s.Data?) && Earlier(c, before, id) <= |DataOn(After(c, before).output, id)|
    ensures Tidy(c, before + [s], id)
  {
    hide DataOn, EndStreams, Retained, SendHeaders, SendData, After;
    AfterMore(c, before, s);
    var c0 := After(c, before);
    match s
    case Headers(i, endStream) =>
      SendHeadersMeaning(c0, i, endStream, id);
      HeadersTouchOne(c0, i, endStream, id);
    case Data(i, data, endStream) =>
      SendDataMeaning(c0, i, data, endStream, id);
      DataTouchesOne(c0, i, data, endStream, id);
  }

  lemma HeadersTouchOne(c: Conn, i: nat, endStream: bool, id: nat)
    ensures var c' := SendHeaders(c, i, endStream).conn;
            id != i ==> (id in c.streams <==> id in c'.streams) && (id in c.streams ==> c'.streams[id] == c.streams[id])
  {
  }

  lemma DataTouchesOne(c: Conn, i: nat, data: string, endStream: bool, id: nat)
    ensures var c' := SendData(c, i, data, endStream).conn;
            id != i ==> (id in c.streams <==> id in c'.streams) && (id in c.streams ==> c'.streams[id] == c.streams[id])
  {
  }

  lemma AfterMore(c: Conn, before: seq<Step>, s: Step)
    ensures (before + [s])[..|before|] == before
    ensures After(c, before + [s]) == Act(After(c, before), s).conn
  {
    assert (before + [s])[..|before|] == before;
  }

  /** A step that sends nothing of ours never touches the outcome, and says so when it closes the stream. */
  lemma QuietStep(c: Conn, s: Step, id: nat)
    requires Sound(c) && id != 0 && !s.Headers? && !s.Data?
    ensures QuietlyFollows(c, Act(c, s).conn)
    ensures exists granted :: StepsTo(c, Act(c, s), id, granted)
  {
    hide SendRst, FinalizeSendClosed, Receive, Granted, QuietlyFollows, StepsTo;
    SameStep(c, id);
    PrefaceIsQuiet(c);
    match s
    case Preface => assert StepsTo(c, Act(c, s), id, 0);
    case Reset(i) => RstStep(c, i, id);
    case Finalize(i) => RstStep(c, i, id);
    case FromPeer(f) => ReceiveStep(c, f, id);
    case _ =>
  }

  lemma QuietStepTidy(c: Conn, before: seq<Step>, s: Step, id: nat)
    requires Sound(After(c, before)) && Tidy(c, before, id) && !s.Headers? && !s.Data? && id != 0
    ensures Tidy(c, before + [s], id)
  {
    hide DataOn, EndStreams, Retained, Act, After, QuietlyFollows, StreamSound;
    AfterMore(c, before, s);
    var c0 := After(c, before);
    QuietStep(c0, s, id);
    QuietMeaning(c0, Act(c0, s).conn, id);
  }

  lemma {:induction false} OrderlyIsTidy(localMaxConcurrent: nat, steps: seq<Step>, id: nat)
    requires id != 0 && Orderly(FreshConn(localMaxConcurrent), steps)
    ensures Tidy(FreshConn(localMaxConcurrent), steps, id)
    decreases |steps|
  {
    hide DataOn, DataBytes, EndStreams, Act, Sound, Tidy, Allowed;
    var c := FreshConn(localMaxConcurrent);
    if steps == [] {
      NothingYet(localMaxConcurrent, id);
    } else {
      var before, s := steps[..|steps| - 1], steps[|steps| - 1];
      OrderlyIsTidy(localMaxConcurrent, before, id);
      OrderlyIsProper(c, steps);
      RunExact(localMaxConcurrent, before, id);
      assert steps == before + [s];
      if s.Headers? || s.Data? { OwnStepTidy(c, before, s, id); } else { QuietStepTidy(c, before, s, id); }
    }
  }

  lemma NothingYet(localMaxConcurrent: nat, id: nat)
    ensures Tidy(FreshConn(localMaxConcurrent), [], id)
  {
  }

  /**
   Over every orderly run no stream is ended twice, whatever the peer does and however many
   streams were forgotten; and the account of the stream in use needs no memory of earlier
   streams of its id.
   */
  lemma EndedOnce(localMaxConcurrent: nat, steps: seq<Step>, id: nat)
    requires id != 0 && Orderly(FreshConn(localMaxConcurrent), steps)
    ensures var c := FreshConn(localMaxConcurrent);
            var c' := After(c, steps);
            && EndStreams(c'.output, id) <= 1
            && (id == Top(steps) && !TopClosed(c, steps) && id in c'.streams ==>
                  var s := c'.streams[id];
                  |DataOn(c'.output, id)| == s.initial + StreamGrants(c, steps, id) - s.window)
  {
    hide DataOn, DataBytes, EndStreams, Act, After, StreamGrants, Earlier, Retained;
    var c := FreshConn(localMaxConcurrent);
    OrderlyIsTidy(localMaxConcurrent, steps, id);
    OrderlyIsProper(c, steps);
    RunExact(localMaxConcurrent, steps, id);
  }

  /** The stream in use, once ended, takes no more headers: nothing ends it again. */
  lemma EndedIsClosed(localMaxConcurrent: nat, steps: seq<Step>, id: nat)
    requires id == Top(steps) > 0 && Orderly(FreshConn(localMaxConcurrent), steps)
    requires !TopClosed(FreshConn(localMaxConcurrent), steps)
    ensures var c := After(FreshConn(localMaxConcurrent), steps);
            EndStreams(c.output, id) >= 1 ==> id in c.streams && SendClosed(c.streams[id].state)
  {
    hide DataOn, DataBytes, EndStreams, Act, After, Earlier;
    OrderlyIsTidy(localMaxConcurrent, steps, id);
  }

  // ------------------------------------------------------------------ how far it got

  predicate IsSetting(s: Step) {
    s.FromPeer? &&
    (s.f.InitialWindowSetting? || s.f.MaxFrameSizeSetting? || s.f.MaxConcurrentSetting? || s.f.OtherSettings?)
  }

  predicate IsGoAway(s: Step) { s.FromPeer? && s.f.GoAwayIn? }

  /** A step leads into the running phase only by a setting, and never from beyond it. */
  lemma PhaseStep(c: Conn, s: Step)
    ensures Act(c, s).conn.phase == Running ==> c.phase == Running || IsSetting(s)
    ensures Act(c, s).conn.phase == Running ==> !IsGoAway(s) && c.phase != Dead && c.phase != GoAwayReceived
  {
    hide QuietlyFollows, CloseStream, DataFrames;
  }

  /** A connection that is running has had a SETTINGS frame of the peer and no GOAWAY, ever. */
  lemma {:induction false} RunningMeans(c: Conn, steps: seq<Step>)
    requires c.phase == AwaitingPreface && After(c, steps).phase == Running
    ensures exists i :: 0 <= i < |steps| && IsSetting(steps[i])
    ensures forall i :: 0 <= i < |steps| ==> !IsGoAway(steps[i])
  {
    hide Act;
    var before, s := steps[..|steps| - 1], steps[|steps| - 1];
    PhaseStep(After(c, before), s);
    if After(c, before).phase == Running {
      RunningMeans(c, before);
      var i :| 0 <= i < |before| && IsSetting(before[i]);
      assert IsSetting(steps[i]);
    } else {
      assert IsSetting(steps[|steps| - 1]);
      NoGoAwayYet(c, before);
    }
    forall i | 0 <= i < |steps| ensures !IsGoAway(steps[i]) {
      assert i < |before| ==> steps[i] == before[i];
    }
  }

  lemma {:induction false} NoGoAwayYet(c: Conn, steps: seq<Step>)
    requires c.phase != GoAwayReceived && c.phase != Dead
    requires After(c, steps).phase != GoAwayReceived && After(c, steps).phase != Dead
    ensures forall i :: 0 <= i < |steps| ==> !IsGoAway(steps[i])
  {
    hide Act;
    if steps != [] {
      var before, s := steps[..|steps| - 1], steps[|steps| - 1];
      PhaseStays(After(c, before), s);
      NoGoAwayYet(c, before);
      forall i | 0 <= i < |steps| ensures !IsGoAway(steps[i]) {
        assert i < |before| ==> steps[i] == before[i];
      }
    }
  }

  /** There is no way back from GOAWAY or death. */
  lemma PhaseStays(c: Conn, s: Step)
    ensures c.phase == Dead ==> Act(c, s).conn.phase == Dead
    ensures c.phase == GoAwayReceived || IsGoAway(s) ==>
              Act(c, s).conn.phase == GoAwayReceived || Act(c, s).conn.phase == Dead
  {
    hide QuietlyFollows, CloseStream, DataFrames;
  }

  // ----------------------------------------------------------------- what was heard

  /** The callbacks made for the peer's frames from step `from` on, in order. */
  function PeerCalls(c: Conn, steps: seq<Step>, from: nat): seq<Call> {
    if |steps| <= from then []
    else
      var before, s := steps[..|steps| - 1], steps[|steps| - 1];
      PeerCalls(c, before, from) + (if s.FromPeer? then Receive(After(c, before), s.f).calls else [])
  }

  /** One more step, as the summaries of a run see it. */
  lemma HistoryGrows(c: Conn, steps: seq<Step>, s: Step, from: nat)
    requires from <= |steps|
    ensures After(c, steps + [s]) == Act(After(c, steps), s).conn
    ensures Orderly(c, steps + [s]) <==> Orderly(c, steps) && Allowed(c, steps, s)
    ensures Top(steps + [s]) == (if s.Headers? && s.id > Top(steps) then s.id else Top(steps))
    ensures TopClosed(c, steps + [s]) <==>
              && !(s.Headers? && s.id > Top(steps))
              && (TopClosed(c, steps) || ClosedCall(Top(steps)) in Act(After(c, steps), s).calls)
    ensures PeerCalls(c, steps + [s], from) ==
              (if s.FromPeer? then PeerCalls(c, steps, from) + Receive(After(c, steps), s.f).calls
               else PeerCalls(c, steps, from))
  {
    hide Act, Receive, Allowed;
    assert (steps + [s])[..|steps|] == steps;
  }

  // ------------------------------------------------------------ forgotten streams

  /** Request without a body, response without a body, on one stream after the other. */
  function Rounds(n: nat): seq<Step> {
    if n == 0 then [Preface]
    else Rounds(n - 1) + [Headers(2 * n - 1, true), FromPeer(HeadersIn(2 * n - 1, [], true))]
  }

  /** The first `n` client streams are closed and retained, and there are no others. */
  ghost predicate AllRetained(c: Conn, n: nat) {
    && Sound(c) && c.phase == AwaitingSettings && c.active == 0 && c.peer.maxConcurrent == 100
    && |c.closedIds| == n && (forall i :: 0 <= i < n ==> c.closedIds[i] == 2 * i + 1)
    && (forall id :: id in c.streams ==> id < 2 * n)
    && EndStreams(c.output, 1) == (if n == 0 then 0 else 1)
  }

  /** The state a round leaves, before old streams are forgotten. */
  function RoundOn(c: Conn, id: nat): Conn {
    c.(streams := c.streams[id := Stream(Closed, c.peer.initialWindow, c.peer.initialWindow, true)],
       closedIds := c.closedIds + [id], output := c.output + [HeadersFrame(id, true)])
  }

  lemma RoundComputes(c: Conn, id: nat)
    requires c.phase == AwaitingSettings && c.active == 0 && c.peer.maxConcurrent == 100 && id !in c.streams && id != 0
    ensures Act(Act(c, Headers(id, true)).conn, FromPeer(HeadersIn(id, [], true))).conn == PruneClosed(RoundOn(c, id))
  {
    hide PruneClosed, QuietlyFollows;
    var s := Stream(HalfClosedLocal, c.peer.initialWindow, c.peer.initialWindow, false);
    var c1 := c.(streams := c.streams[id := s], active := 1, output := c.output + [HeadersFrame(id, true)]);
    assert Act(c, Headers(id, true)).conn == c1;
    var c2 := c1.(streams := c1.streams[id := s.(state := Closed)]);
    assert CloseStream(c2, id).conn == PruneClosed(RoundOn(c, id)) by {
      assert c2.streams[id := s.(state := Closed, notified := true)] == RoundOn(c, id).streams;
    }
  }

  lemma RoundEnds(c: Conn, id: nat)
    ensures EndStreams(PruneClosed(RoundOn(c, id)).output, 1) == EndStreams(c.output, 1) + (if id == 1 then 1 else 0)
  {
    hide PruneClosed, EndStreams;
    Append(c.output, [HeadersFrame(id, true)], 1);
    One(HeadersFrame(id, true), 1);
  }

  /** One more round; the stream closed longest ago makes way once sixteen are retained. */
  lemma OneRound(c: Conn, n: nat)
    requires AllRetained(c, n) && n <= CLOSED_RETAINED
    ensures var id := 2 * n + 1;
            var c' := Act(Act(c, Headers(id, true)).conn, FromPeer(HeadersIn(id, [], true))).conn;
            && (n < CLOSED_RETAINED ==> AllRetained(c', n + 1))
            && (n == CLOSED_RETAINED ==> 1 !in c'.streams && Sound(c') && CanCreateStreams(c'))
            && EndStreams(c'.output, 1) == 1
  {
    hide EndStreams, Retained, StreamSound, Act;
    var id := 2 * n + 1;
    StepSound(c, Headers(id, true));
    StepSound(Act(c, Headers(id, true)).conn, FromPeer(HeadersIn(id, [], true)));
    RoundComputes(c, id);
    RoundEnds(c, id);
    if n == CLOSED_RETAINED {
      var d := RoundOn(c, id);
      var d' := d.(streams := d.streams - {d.closedIds[0]}, closedIds := d.closedIds[1..]);
      assert PruneClosed(d) == PruneClosed(d') == d';
    }
  }

  lemma {:induction false} RoundsRetained(localMaxConcurrent: nat, n: nat)
    requires n <= CLOSED_RETAINED
    ensures AllRetained(After(FreshConn(localMaxConcurrent), Rounds(n)), n)
  {
    hide AllRetained, Act;
    var c := FreshConn(localMaxConcurrent);
    if n == 0 {
      assert Rounds(0)[..0] == [];
      PrefaceRetains(localMaxConcurrent);
    } else {
      RoundsRetained(localMaxConcurrent, n - 1);
      OneRound(After(c, Rounds(n - 1)), n - 1);
      RoundMore(c, n);
    }
  }

  lemma PrefaceRetains(localMaxConcurrent: nat)
    ensures AllRetained(Act(FreshConn(localMaxConcurrent), Preface).conn, 0)
  {
    var c := FreshConn(localMaxConcurrent);
    PrefaceIsQuiet(c);
    QuietMeaning(c, SendPreface(c), 1);
    FreshSound(localMaxConcurrent);
    StepSound(c, Preface);
  }

  lemma RoundMore(c: Conn, n: nat)
    requires n >= 1
    ensures After(c, Rounds(n)) ==
              Act(Act(After(c, Rounds(n - 1)), Headers(2 * n - 1, true)).conn,
                  FromPeer(HeadersIn(2 * n - 1, [], true))).conn
  {
    hide Act;
    var before, s, t := Rounds(n - 1), Headers(2 * n - 1, true), FromPeer(HeadersIn(2 * n - 1, [], true));
    AfterMore(c, before, s);
    AfterMore(c, before + [s], t);
    assert Rounds(n) == before + [s] + [t];
  }

  /**
   Without the order of `Orderly` the connection does end a stream twice: after seventeen
   exchanges stream 1 is forgotten, and headers sent on it open it again.
   */
  lemma ForgottenStream(localMaxConcurrent: nat)
    ensures var c := After(FreshConn(localMaxConcurrent), Rounds(17));
            && 1 !in c.streams && EndStreams(c.output, 1) == 1
            && EndStreams(SendHeaders(c, 1, true).conn.output, 1) == 2
  {
    hide AllRetained, Act, EndStreams, Rounds, After;
    var c := FreshConn(localMaxConcurrent);
    RoundsRetained(localMaxConcurrent, 16);
    OneRound(After(c, Rounds(16)), 16);
    RoundMore(c, 17);
    SendHeadersMeaning(After(c, Rounds(17)), 1, true, 1);
  }
}
