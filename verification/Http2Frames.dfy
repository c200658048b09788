/**
 What the peer's frames do to a stream and what is heard of them: each side of a stream is
 closed by its own END_STREAM and nothing else, and over any run the message callbacks of a
 stream are exactly the HEADERS and DATA frames it could take, in order.
 */
module Http2Frames {
  import opened Text
  import opened Http2Connections

  // ------------------------------------------------------------------ the two sides

  /** We may still send on the stream. */
  predicate LocalOpen(s: StreamState) { s.Open? || s.HalfClosedRemote? }

  /** The peer may still send on the stream. */
  predicate RemoteOpen(s: StreamState) { s.Open? || s.HalfClosedLocal? }

  /** Sending closes our side exactly when it ends the stream, and leaves the peer's alone. */
  lemma SendingMovesOurSide(s: StreamState, endStream: bool)
    ensures CanSend(s) <==> LocalOpen(s)
    ensures OnSendHeaders(s, endStream).Some? <==> s.Idle? || LocalOpen(s)
    ensures OnSendHeaders(s, endStream).Some? ==>
              var t := OnSendHeaders(s, endStream).value;
              !t.Idle? && LocalOpen(t) == !endStream && RemoteOpen(t) == (s.Idle? || RemoteOpen(s))
    ensures LocalOpen(s) ==>
              var t := OnSendData(s, endStream);
              !t.Idle? && LocalOpen(t) == !endStream && RemoteOpen(t) == RemoteOpen(s)
  {
  }

  /** Receiving closes the peer's side exactly when it ends the stream, and leaves ours alone. */
  lemma ReceivingMovesTheirSide(s: StreamState, endStream: bool)
    ensures CanReceive(s) <==> RemoteOpen(s)
    ensures OnReceiveHeaders(s, endStream).Some? <==> s.Idle? || RemoteOpen(s)
    ensures OnReceiveHeaders(s, endStream).Some? ==>
              var t := OnReceiveHeaders(s, endStream).value;
              !t.Idle? && RemoteOpen(t) == !endStream && LocalOpen(t) == (s.Idle? || LocalOpen(s))
    ensures RemoteOpen(s) ==>
              var t := OnReceiveData(s, endStream);
              !t.Idle? && RemoteOpen(t) == !endStream && LocalOpen(t) == LocalOpen(s)
  {
  }

  // ------------------------------------------------------------- what is heard of it

  function FrameId(f: PeerFrame): nat {
    match f
    case WindowUpdate(id, _) => id
    case HeadersIn(id, _, _) => id
    case DataIn(id, _, _) => id
    case RstIn(id) => id
    case StreamViolation(id) => id
    case _ => 0
  }

  predicate Beyond(c: Conn, id: nat) { c.phase == GoAwayReceived && id > c.goAwayLast }

  /**
   A frame of a message is taken: DATA while the peer's side is open; HEADERS then too, on a stream
   not yet used, or on a new one within the limit; none beyond a GOAWAY.
   */
  predicate Takes(c: Conn, f: PeerFrame) {
    var id := FrameId(f);
    && id != 0
    && match f
       case DataIn(_, _, _) => id in c.streams && RemoteOpen(c.streams[id].state)
       case HeadersIn(_, _, _) =>
         && !Beyond(c, id)
         && (if id in c.streams then c.streams[id].state.Idle? || RemoteOpen(c.streams[id].state)
             else c.active < c.localMaxConcurrent)
       case _ => false
  }

  /** A frame resets a stream that is held: by asking for it, or by breaking a rule. */
  predicate Resets(c: Conn, f: PeerFrame) {
    var id := FrameId(f);
    && id in c.streams
    && match f
       case RstIn(_) => id != 0
       case StreamViolation(_) => true
       case WindowUpdate(_, increment) =>
         id != 0 && (increment == 0 || c.streams[id].window + increment > MAX_WINDOW)
       case DataIn(_, _, _) => id != 0 && !RemoteOpen(c.streams[id].state)
       case HeadersIn(_, _, _) =>
         id != 0 && !Beyond(c, id) && !c.streams[id].state.Idle? && !RemoteOpen(c.streams[id].state)
       case _ => false
  }

  predicate EndsStream(f: PeerFrame) { (f.DataIn? || f.HeadersIn?) && f.endStream }

  /** The stream is closed by it: reset, or ended by the peer when our side was closed already. */
  predicate Closes(c: Conn, f: PeerFrame) {
    var id := FrameId(f);
    && id in c.streams && !c.streams[id].notified
    && (Resets(c, f) || (Takes(c, f) && EndsStream(f) && c.streams[id].state.HalfClosedLocal?))
  }

  /** The callbacks a frame makes on a live connection: its message, a close, a reset, a GOAWAY. */
  function CallsSaid(c: Conn, f: PeerFrame): seq<Call> {
    (if !Takes(c, f) then []
     else if f.DataIn? then [DataCall(f.id, f.data, f.endStream)]
     else if f.HeadersIn? then [HeadersCall(f.id, f.block, f.endStream)] else []) +
    (if Closes(c, f) then [ClosedCall(FrameId(f))] else []) +
    (if Resets(c, f) then [ResetCall(FrameId(f))] else []) +
    (if f.GoAwayIn? then [GoAwayCall(f.last)] else [])
  }

  lemma ClosedOnce(c: Conn, id: nat)
    requires id in c.streams
    ensures CloseStream(c, id).calls == if c.streams[id].notified then [] else [ClosedCall(id)]
  {
  }

  lemma ResetCalls(c: Conn, id: nat)
    requires id in c.streams
    ensures SendRst(c, id).calls == (if c.streams[id].notified then [] else [ClosedCall(id)]) + [ResetCall(id)]
    ensures ReceiveRst(c, id).calls == if id == 0 then [] else SendRst(c, id).calls
  {
    hide CloseStream, QuietlyFollows;
    ClosedOnce(c, id);
    ClosedOnce(c.(output := c.output + [RstFrame(id)]), id);
  }

  lemma DataCalls(c: Conn, id: nat, data: string, endStream: bool)
    ensures ReceiveData(c, id, data, endStream).calls == CallsSaid(c, DataIn(id, data, endStream))
  {
    hide CloseStream, SendRst, QuietlyFollows;
    if id != 0 && id in c.streams {
      if CanReceive(c.streams[id].state) {
        var s := c.streams[id];
        ReceivingMovesTheirSide(s.state, endStream);
        var c' := c.(streams := c.streams[id := s.(state := OnReceiveData(s.state, endStream))],
                     output := if data == "" then c.output else c.output + [Housekeeping, Housekeeping]);
        ClosedOnce(c', id);
      } else {
        ResetCalls(c, id);
      }
    }
  }

  lemma HeadersCalls(c: Conn, id: nat, block: Block, endStream: bool)
    ensures ReceiveHeaders(c, id, block, endStream).calls == CallsSaid(c, HeadersIn(id, block, endStream))
  {
    hide CloseStream, SendRst, QuietlyFollows, TakeHeaders;
    var s := StreamFor(c, id).state;
    ReceivingMovesTheirSide(s, endStream);
    if id != 0 && !Beyond(c, id) && (id in c.streams || c.active < c.localMaxConcurrent) {
      if OnReceiveHeaders(s, endStream).Some? {
        TakenCalls(c, id, block, endStream, OnReceiveHeaders(s, endStream).value);
      } else {
        ResetCalls(c, id);
      }
    }
  }

  lemma TakenCalls(c: Conn, id: nat, block: Block, endStream: bool, state: StreamState)
    ensures TakeHeaders(c, id, block, endStream, state).calls == [HeadersCall(id, block, endStream)] +
              if endStream && state == Closed && !StreamFor(c, id).notified then [ClosedCall(id)] else []
  {
    hide CloseStream, QuietlyFollows;
    var c' := c.(streams := c.streams[id := StreamFor(c, id).(state := state)],
                 active := c.active + (if id in c.streams then 0 else 1));
    ClosedOnce(c', id);
  }

  /** What is heard of one frame. */
  lemma FrameHeard(c: Conn, f: PeerFrame)
    ensures Receive(c, f).calls == if c.phase == Dead then [] else CallsSaid(c, f)
  {
    hide ReceiveData, ReceiveHeaders, SendRst, ReceiveRst, QuietlyFollows;
    if c.phase != Dead {
      match f
      case DataIn(id, data, endStream) => DataCalls(c, id, data, endStream);
      case HeadersIn(id, block, endStream) => HeadersCalls(c, id, block, endStream);
      case RstIn(id) =>
        if id in c.streams { ResetCalls(c, id); } else { NothingToReset(c, id); }
      case StreamViolation(id) =>
        if id in c.streams { ResetCalls(c, id); } else { NothingToReset(c, id); }
      case WindowUpdate(id, _) =>
        if id in c.streams { ResetCalls(c, id); } else { NothingToReset(c, id); }
      case _ =>
    }
  }

  lemma NothingToReset(c: Conn, id: nat)
    requires id !in c.streams
    ensures SendRst(c, id).calls == [] && ReceiveRst(c, id).calls == []
  {
  }

  /** What is said to be heard of the peer's frames of a run. */
  function HeardFrom(c: Conn, steps: seq<Step>, from: nat): seq<Call> {
    if |steps| <= from then []
    else
      var before, s := steps[..|steps| - 1], steps[|steps| - 1];
      var c' := After(c, before);
      HeardFrom(c, before, from) + (if s.FromPeer? && c'.phase != Dead then CallsSaid(c', s.f) else [])
  }

  /** Over every run the callbacks are exactly those the frames call for, in order. */
  lemma {:induction false} AllHeard(c: Conn, steps: seq<Step>, from: nat)
    ensures PeerCalls(c, steps, from) == HeardFrom(c, steps, from)
    decreases |steps|
  {
    hide Receive, CallsSaid, After;
    if |steps| > from {
      var before, s := steps[..|steps| - 1], steps[|steps| - 1];
      AllHeard(c, before, from);
      if s.FromPeer? { FrameHeard(After(c, before), s.f); }
    }
  }

  // --------------------------------------------------------- phases and settings

  predicate IsSettings(f: PeerFrame) {
    f.InitialWindowSetting? || f.MaxFrameSizeSetting? || f.MaxConcurrentSetting? || f.OtherSettings?
  }

  /** Where another initial window would move the window of a stream. */
  function MovedTo(s: Stream, initial: int): int { s.window + (initial - s.initial) }

  /** The frame breaks a rule of the whole connection. */
  ghost predicate Kills(c: Conn, f: PeerFrame) {
    match f
    case WindowUpdate(id, increment) => id == 0 && (increment == 0 || c.window + increment > 0x7FFF_FFFF)
    case InitialWindowSetting(value, _) =>
      value > 0x7FFF_FFFF || exists id :: id in c.streams && OutOfRange(MovedTo(c.streams[id], value))
    case MaxFrameSizeSetting(value) => value < 16384 || value > 16777215
    case HeadersIn(id, _, _) => id == 0 || (!Beyond(c, id) && id !in c.streams && c.active >= c.localMaxConcurrent)
    case DataIn(id, _, _) => id == 0
    case RstIn(id) => id == 0
    case ConnectionViolation => true
    case _ => false
  }

  /** The phase after a frame: dead for good, refused further streams, or opened by any SETTINGS. */
  lemma PhaseAfter(c: Conn, f: PeerFrame)
    ensures Receive(c, f).conn.phase ==
            if c.phase == Dead || Kills(c, f) then Dead
            else if f.GoAwayIn? then GoAwayReceived
            else if IsSettings(f) && c.phase == AwaitingSettings then Running else c.phase
  {
    hide CloseStream, QuietlyFollows;
    if f.InitialWindowSetting? {
      forall id | id in c.streams
        ensures Movable(c.streams[id], f.value) <==> !OutOfRange(MovedTo(c.streams[id], f.value)) {
      }
    }
  }

  /** The last setting of a kind in a run, or its default. */
  function LastFrameSize(steps: seq<Step>): nat {
    if steps == [] then 16384
    else
      var s := steps[|steps| - 1];
      if s.FromPeer? && s.f.MaxFrameSizeSetting? then s.f.value else LastFrameSize(steps[..|steps| - 1])
  }

  function LastWindow(steps: seq<Step>): nat {
    if steps == [] then 65535
    else
      var s := steps[|steps| - 1];
      if s.FromPeer? && s.f.InitialWindowSetting? then s.f.value else LastWindow(steps[..|steps| - 1])
  }

  function LastConcurrent(steps: seq<Step>): nat {
    if steps == [] then 100
    else
      var s := steps[|steps| - 1];
      if s.FromPeer? && s.f.MaxConcurrentSetting? then s.f.value else LastConcurrent(steps[..|steps| - 1])
  }

  lemma StepSettings(c: Conn, s: Step)
    ensures var p := Act(c, s).conn.peer;
            Act(c, s).conn.phase != Dead ==>
              && c.phase != Dead
              && p.initialWindow ==
                   (if s.FromPeer? && s.f.InitialWindowSetting? then s.f.value else c.peer.initialWindow)
              && p.maxFrameSize == (if s.FromPeer? && s.f.MaxFrameSizeSetting? then s.f.value else c.peer.maxFrameSize)
              && p.maxConcurrent ==
                   (if s.FromPeer? && s.f.MaxConcurrentSetting? then s.f.value else c.peer.maxConcurrent)
  {
    hide CloseStream, QuietlyFollows, DataFrames, Receive;
    if s.FromPeer? { FrameSettings(c, s.f); }
  }

  lemma FrameSettings(c: Conn, f: PeerFrame)
    ensures var c' := Receive(c, f).conn;
            c'.phase != Dead ==>
              && c.phase != Dead
              && c'.peer.initialWindow == (if f.InitialWindowSetting? then f.value else c.peer.initialWindow)
              && c'.peer.maxFrameSize == (if f.MaxFrameSizeSetting? then f.value else c.peer.maxFrameSize)
              && c'.peer.maxConcurrent == (if f.MaxConcurrentSetting? then f.value else c.peer.maxConcurrent)
  {
    hide CloseStream, QuietlyFollows, Movable, OnReceiveHeaders, OnReceiveData;
  }

  /** While a connection lives it goes by the peer's last settings, and by the defaults before them. */
  lemma {:induction false} SettingsHeld(localMaxConcurrent: nat, steps: seq<Step>)
    ensures var c := After(FreshConn(localMaxConcurrent), steps);
            c.phase != Dead ==>
              && c.peer.initialWindow == LastWindow(steps) && c.peer.maxFrameSize == LastFrameSize(steps)
              && c.peer.maxConcurrent == LastConcurrent(steps)
  {
    hide Act;
    if steps != [] {
      SettingsHeld(localMaxConcurrent, steps[..|steps| - 1]);
      StepSettings(After(FreshConn(localMaxConcurrent), steps[..|steps| - 1]), steps[|steps| - 1]);
    }
  }

  // ----------------------------------------------------------------- opening streams

  /** HEADERS go out on a stream that is held while our side is open, or open a new one within the peer's limit. */
  lemma HeadersGoOutWhen(c: Conn, id: nat, endStream: bool)
    ensures SendHeaders(c, id, endStream).ok <==>
            if id in c.streams then c.streams[id].state.Idle? || LocalOpen(c.streams[id].state)
            else c.active < c.peer.maxConcurrent && (c.phase == Running || c.phase == AwaitingSettings)
  {
  }

  /** The streams in flight: held and not yet reported closed. */
  ghost function InFlight(c: Conn): set<nat> { set id | id in c.streams && !c.streams[id].notified }

  ghost predicate Counted(c: Conn) { c.active == |InFlight(c)| }

  /** Another entry for a stream in flight, or for a new one. */
  lemma PutCounted(c: Conn, c': Conn, id: nat)
    requires Counted(c) && id in c'.streams && c'.streams == c.streams[id := c'.streams[id]]
    requires !c'.streams[id].notified && (id in c.streams ==> !c.streams[id].notified)
    requires c'.active == c.active + (if id in c.streams then 0 else 1)
    ensures Counted(c')
  {
    assert InFlight(c') == InFlight(c) + {id};
    assert id in InFlight(c) <==> id in c.streams;
  }

  lemma CloseCounted(c: Conn, id: nat)
    requires Sound(c) && Counted(c) && id in c.streams
    ensures Counted(CloseStream(c, id).conn)
  {
    hide PruneClosed, QuietlyFollows;
    var s, c' := c.streams[id], CloseStream(c, id).conn;
    if s.notified {
      assert InFlight(c') == InFlight(c);
    } else {
      var c1 := c.(streams := c.streams[id := s.(state := Closed, notified := true)],
                   active := c.active - 1, closedIds := c.closedIds + [id]);
      forall i | 0 <= i < |c1.closedIds| ensures WasClosed(c1, c1.closedIds[i]) {
        if i < |c.closedIds| { assert WasClosed(c, c.closedIds[i]); }
      }
      forall i, j | 0 <= i < j < |c1.closedIds| ensures c1.closedIds[i] != c1.closedIds[j] {
        if j == |c.closedIds| { assert WasClosed(c, c.closedIds[i]); }
      }
      forall i: nat ensures i in InFlight(c') <==> i in InFlight(c1) { PruneStep(c1, i); }
      assert InFlight(c') == InFlight(c1) == InFlight(c) - {id};
      PruneKeepsActive(c1);
    }
  }

  lemma {:induction false} PruneKeepsActive(c: Conn)
    ensures PruneClosed(c).active == c.active
    decreases |c.closedIds|
  {
    if |c.closedIds| > CLOSED_RETAINED {
      PruneKeepsActive(c.(streams := c.streams - {c.closedIds[0]}, closedIds := c.closedIds[1..]));
    }
  }

  lemma ResetCounted(c: Conn, id: nat)
    requires Sound(c) && Counted(c)
    ensures Counted(SendRst(c, id).conn) && Counted(FinalizeSendClosed(c, id).conn) && Counted(ReceiveRst(c, id).conn)
  {
    hide CloseStream, QuietlyFollows, Retained, StreamSound;
    var c' := c.(output := c.output + [RstFrame(id)]);
    assert InFlight(c') == InFlight(c);
    assert InFlight(Die(c).conn) == InFlight(c);
    assert Sound(c') by { SoundOutput(c, c'.output); }
    if id in c.streams {
      CloseCounted(c, id);
      CloseCounted(c', id);
    }
  }

  lemma SoundOutput(c: Conn, output: seq<Frame>)
    requires Sound(c)
    ensures Sound(c.(output := output))
  {
    assert forall i :: 0 <= i < |c.closedIds| ==> WasClosed(c, c.closedIds[i]);
  }

  /** Streams whose entries change but for their reported closing. */
  lemma SameCounted(c: Conn, c': Conn)
    requires Counted(c) && c'.active == c.active && c'.streams.Keys == c.streams.Keys
    requires forall id :: id in c.streams ==> c'.streams[id].notified == c.streams[id].notified
    ensures Counted(c')
  {
    assert InFlight(c') == InFlight(c);
  }

  lemma SendCounted(c: Conn, id: nat, data: string, endStream: bool)
    requires Sound(c) && Counted(c)
    ensures Counted(SendHeaders(c, id, endStream).conn) && Counted(SendData(c, id, data, endStream).conn)
  {
    hide DataFrames, Retained;
    var h, d := SendHeaders(c, id, endStream), SendData(c, id, data, endStream);
    if h.ok { PutCounted(c, h.conn, id); }
    if d.ok { PutCounted(c, d.conn, id); }
  }

  lemma HeadersCounted(c: Conn, id: nat, block: Block, endStream: bool)
    requires Sound(c) && Counted(c)
    ensures Counted(ReceiveHeaders(c, id, block, endStream).conn)
  {
    hide CloseStream, QuietlyFollows, SendRst, TakeHeaders;
    ResetCounted(c, id);
    assert InFlight(Die(c).conn) == InFlight(c);
    var state := OnReceiveHeaders(StreamFor(c, id).state, endStream);
    if id != 0 && state.Some? { TakenCounted(c, id, block, endStream, state.value); }
  }

  lemma TakenCounted(c: Conn, id: nat, block: Block, endStream: bool, state: StreamState)
    requires Sound(c) && Counted(c) && id != 0
    requires OnReceiveHeaders(StreamFor(c, id).state, endStream) == Some(state)
    ensures Counted(TakeHeaders(c, id, block, endStream, state).conn)
  {
    hide CloseStream, QuietlyFollows;
    var c' := c.(streams := c.streams[id := StreamFor(c, id).(state := state)],
                 active := c.active + (if id in c.streams then 0 else 1));
    PutCounted(c, c', id);
    if endStream && state == Closed {
      PutSound(c, c', id);
      CloseCounted(c', id);
    }
  }

  lemma PutSound(c: Conn, c': Conn, id: nat)
    requires Sound(c) && id != 0 && id in c'.streams && c'.streams == c.streams[id := c'.streams[id]]
    requires c'.window == c.window && c'.peer == c.peer && c'.phase == c.phase && c'.closedIds == c.closedIds
    requires StreamSound(c'.streams[id], Announced(c)) && (id in c.streams ==> !c.streams[id].notified)
    ensures Sound(c')
  {
    forall i | 0 <= i < |c.closedIds| ensures WasClosed(c', c.closedIds[i]) { assert WasClosed(c, c.closedIds[i]); }
  }

  lemma DataCounted(c: Conn, id: nat, data: string, endStream: bool)
    requires Sound(c) && Counted(c)
    ensures Counted(ReceiveData(c, id, data, endStream).conn)
  {
    hide CloseStream, QuietlyFollows, SendRst;
    ResetCounted(c, id);
    assert InFlight(Die(c).conn) == InFlight(c);
    if id != 0 && id in c.streams && CanReceive(c.streams[id].state) {
      var s := c.streams[id];
      var c' := c.(streams := c.streams[id := s.(state := OnReceiveData(s.state, endStream))],
                   output := if data == "" then c.output else c.output + [Housekeeping, Housekeeping]);
      PutCounted(c, c', id);
      PutSound(c, c', id);
      CloseCounted(c', id);
    }
  }

  lemma FrameCounted(c: Conn, f: PeerFrame)
    requires Sound(c) && Counted(c)
    ensures Counted(Receive(c, f).conn)
  {
    hide ReceiveData, ReceiveHeaders, SendRst, ReceiveRst, QuietlyFollows, Sound, Movable;
    match f
    case DataIn(id, data, endStream) => DataCounted(c, id, data, endStream);
    case HeadersIn(id, block, endStream) => HeadersCounted(c, id, block, endStream);
    case RstIn(id) => ResetCounted(c, id);
    case StreamViolation(id) => ResetCounted(c, id);
    case WindowUpdate(id, increment) => UpdateCounted(c, id, increment);
    case _ => SameCounted(c, Receive(c, f).conn);
  }

  lemma UpdateCounted(c: Conn, id: nat, increment: nat)
    requires Sound(c) && Counted(c)
    ensures Counted(ReceiveWindowUpdate(c, id, increment).conn)
  {
    hide SendRst, QuietlyFollows, Sound;
    ResetCounted(c, id);
    var r := ReceiveWindowUpdate(c, id, increment);
    if id == 0 || increment == 0 || id !in c.streams || c.streams[id].window + increment > MAX_WINDOW {
      assert InFlight(Die(c).conn) == InFlight(c) && InFlight(c.(window := r.conn.window)) == InFlight(c);
    } else {
      SameCounted(c, r.conn);
    }
  }

  /** Over every run, the count that limits new streams is exactly the streams in flight. */
  lemma {:induction false} ActiveExact(localMaxConcurrent: nat, steps: seq<Step>)
    requires forall i :: 0 <= i < |steps| ==> Proper(steps[i])
    ensures Counted(After(FreshConn(localMaxConcurrent), steps))
  {
    hide Sound, Receive, SendRst, SendHeaders, SendData, FinalizeSendClosed;
    var c := FreshConn(localMaxConcurrent);
    if steps == [] {
      assert InFlight(c) == {};
    } else {
      var before, s := steps[..|steps| - 1], steps[|steps| - 1];
      ActiveExact(localMaxConcurrent, before);
      RunExact(localMaxConcurrent, before, 1);
      var c' := After(c, before);
      match s
      case Preface => SameCounted(c', SendPreface(c'));
      case Headers(id, endStream) => SendCounted(c', id, "", endStream);
      case Data(id, data, endStream) => SendCounted(c', id, data, endStream);
      case Reset(id) => ResetCounted(c', id);
      case Finalize(id) => ResetCounted(c', id);
      case FromPeer(f) => FrameCounted(c', f);
    }
  }

  // ----------------------------------------------------------------- settled streams

  /** The peer has ended the stream, which is held and not yet reported closed. */
  ghost predicate PeerDone(c: Conn, id: nat) {
    && id in c.streams && !c.streams[id].notified
    && !c.streams[id].state.Idle? && !RemoteOpen(c.streams[id].state)
  }

  lemma ClosingOthers(c: Conn, on: nat, id: nat)
    requires Sound(c) && on in c.streams && on != id
    ensures var c' := CloseStream(c, on).conn;
            id in c.streams && !c.streams[id].notified ==> id in c'.streams && c'.streams[id] == c.streams[id]
  {
    hide PruneClosed, QuietlyFollows;
    var s := c.streams[on];
    if !s.notified {
      var c1 := c.(streams := c.streams[on := s.(state := Closed, notified := true)],
                   active := c.active - 1, closedIds := c.closedIds + [on]);
      forall i | 0 <= i < |c1.closedIds| ensures WasClosed(c1, c1.closedIds[i]) {
        if i < |c.closedIds| { assert WasClosed(c, c.closedIds[i]); }
      }
      forall i, j | 0 <= i < j < |c1.closedIds| ensures c1.closedIds[i] != c1.closedIds[j] {
        if j == |c.closedIds| { assert WasClosed(c, c.closedIds[i]); }
      }
      PruneStep(c1, id);
    }
  }

  /** Closing a stream takes it out of flight. */
  lemma ClosingSettles(c: Conn, id: nat)
    requires Sound(c) && id in c.streams
    ensures id !in InFlight(CloseStream(c, id).conn)
  {
    hide PruneClosed, QuietlyFollows;
    var s := c.streams[id];
    if !s.notified {
      var c1 := c.(streams := c.streams[id := s.(state := Closed, notified := true)],
                   active := c.active - 1, closedIds := c.closedIds + [id]);
      forall i | 0 <= i < |c1.closedIds| ensures WasClosed(c1, c1.closedIds[i]) {
        if i < |c.closedIds| { assert WasClosed(c, c.closedIds[i]); }
      }
      forall i, j | 0 <= i < j < |c1.closedIds| ensures c1.closedIds[i] != c1.closedIds[j] {
        if j == |c.closedIds| { assert WasClosed(c, c.closedIds[i]); }
      }
      PruneStep(c1, id);
    }
  }

  /** Aborting a stream settles it, and so does finalizing one that both sides have ended. */
  lemma SettledBy(c: Conn, id: nat, ended: bool)
    requires Sound(c) && (ended ==> PeerDone(c, id) && SendClosed(c.streams[id].state))
    ensures id !in InFlight(Act(c, if ended then Finalize(id) else Reset(id)).conn)
  {
    hide CloseStream, QuietlyFollows, Sound;
    var c' := c.(output := c.output + [RstFrame(id)]);
    SoundOutput(c, c'.output);
    if id in c.streams {
      ClosingSettles(c, id);
      ClosingSettles(c', id);
    }
  }

  lemma ResetKeepsDone(c: Conn, on: nat, id: nat)
    requires Sound(c) && PeerDone(c, id)
    ensures PeerDone(SendRst(c, on).conn, id) || ClosedCall(id) in SendRst(c, on).calls
    ensures PeerDone(FinalizeSendClosed(c, on).conn, id) || ClosedCall(id) in FinalizeSendClosed(c, on).calls
    ensures PeerDone(ReceiveRst(c, on).conn, id) || ClosedCall(id) in ReceiveRst(c, on).calls
  {
    hide CloseStream, QuietlyFollows, Sound;
    var c' := c.(output := c.output + [RstFrame(on)]);
    SoundOutput(c, c'.output);
    if on in c.streams {
      ClosedOnce(c, on);
      ClosedOnce(c', on);
      if on != id {
        ClosingOthers(c, on, id);
        ClosingOthers(c', on, id);
      }
    }
  }

  lemma DataKeepsDone(c: Conn, on: nat, data: string, endStream: bool, id: nat)
    requires Sound(c) && (PeerDone(c, id) || (Takes(c, DataIn(on, data, endStream)) && endStream && on == id))
    ensures var r := ReceiveData(c, on, data, endStream); PeerDone(r.conn, id) || ClosedCall(id) in r.calls
  {
    hide CloseStream, QuietlyFollows, SendRst, Retained;
    if PeerDone(c, id) { ResetKeepsDone(c, on, id); }
    if on != 0 && on in c.streams && CanReceive(c.streams[on].state) {
      var s := c.streams[on];
      ReceivingMovesTheirSide(s.state, endStream);
      var c' := c.(streams := c.streams[on := s.(state := OnReceiveData(s.state, endStream))],
                   output := if data == "" then c.output else c.output + [Housekeeping, Housekeeping]);
      PutSound(c, c', on);
      ClosedOnce(c', on);
      if on != id { ClosingOthers(c', on, id); }
    }
  }

  lemma HeadersKeepDone(c: Conn, on: nat, block: Block, endStream: bool, id: nat)
    requires Sound(c) && (PeerDone(c, id) || (Takes(c, HeadersIn(on, block, endStream)) && endStream && on == id))
    ensures var r := ReceiveHeaders(c, on, block, endStream); PeerDone(r.conn, id) || ClosedCall(id) in r.calls
  {
    hide CloseStream, QuietlyFollows, SendRst, TakeHeaders, Retained;
    if PeerDone(c, id) { ResetKeepsDone(c, on, id); }
    var s := StreamFor(c, on).state;
    ReceivingMovesTheirSide(s, endStream);
    if on != 0 && OnReceiveHeaders(s, endStream).Some? {
      TakenKeepsDone(c, on, block, endStream, OnReceiveHeaders(s, endStream).value, id);
    }
  }

  lemma TakenKeepsDone(c: Conn, on: nat, block: Block, endStream: bool, state: StreamState, id: nat)
    requires Sound(c) && on != 0 && OnReceiveHeaders(StreamFor(c, on).state, endStream) == Some(state)
    requires PeerDone(c, id) || (endStream && on == id)
    ensures var r := TakeHeaders(c, on, block, endStream, state); PeerDone(r.conn, id) || ClosedCall(id) in r.calls
  {
    hide CloseStream, QuietlyFollows, Retained;
    ReceivingMovesTheirSide(StreamFor(c, on).state, endStream);
    var c' := c.(streams := c.streams[on := StreamFor(c, on).(state := state)],
                 active := c.active + (if on in c.streams then 0 else 1));
    PutSound(c, c', on);
    ClosedOnce(c', on);
    if on != id { ClosingOthers(c', on, id); }
  }

  /** Once the peer has ended a stream, or with the frame that does, it stays so until it is reported closed. */
  lemma FrameKeepsDone(c: Conn, f: PeerFrame, id: nat)
    requires Sound(c)
    requires PeerDone(c, id) || (c.phase != Dead && Takes(c, f) && EndsStream(f) && FrameId(f) == id)
    ensures PeerDone(Receive(c, f).conn, id) || ClosedCall(id) in Receive(c, f).calls
  {
    hide ReceiveData, ReceiveHeaders, SendRst, ReceiveRst, QuietlyFollows, Sound;
    if c.phase != Dead {
      match f
      case DataIn(on, data, endStream) => DataKeepsDone(c, on, data, endStream, id);
      case HeadersIn(on, block, endStream) => HeadersKeepDone(c, on, block, endStream, id);
      case RstIn(on) => ResetKeepsDone(c, on, id);
      case StreamViolation(on) => ResetKeepsDone(c, on, id);
      case WindowUpdate(on, _) => ResetKeepsDone(c, on, id);
      case _ =>
    }
  }

  /** So does sending on it. */
  lemma SendingKeepsDone(c: Conn, on: nat, data: string, endStream: bool, id: nat)
    requires PeerDone(c, id)
    ensures PeerDone(SendHeaders(c, on, endStream).conn, id) && PeerDone(SendData(c, on, data, endStream).conn, id)
  {
    hide DataFrames;
  }
}
