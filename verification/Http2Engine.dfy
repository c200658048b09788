/**
 The HTTP/2 client engine: callbacks that assemble one response at a time, and the
 exchange that uploads a request body under flow control and waits for the answer.

 Peer frames arrive in any order and number; waiting on the network is bounded by a
 patience that stands for the deadline.
 */
module Http2Engines {
  import opened Text
  import opened Http2Connections
  import Frames = Http2Frames

  datatype Failure = NoFailure | TooBig | Malformed | StreamReset | StreamRefused

  datatype Message = Message(status: nat, fields: Block, contentType: string, body: string)

  /** Bookkeeping of the exchange in flight. */
  datatype Exchange = Exchange(
    streamId: nat,
    attached: bool,
    limit: nat,
    failure: Failure,
    streamClosed: bool,
    finalHeadersSeen: bool,
    responseComplete: bool,
    msg: Message)

  // -------------------------------------------------------------------- callbacks

  /** First failure wins. */
  function Fail(e: Exchange, f: Failure): Exchange { if e.failure == NoFailure then e.(failure := f) else e }

  function Lookup(block: Block, name: string): Option<string> {
    if block == [] then None else if block[0].0 == name then Some(block[0].1) else Lookup(block[1..], name)
  }

  /** Three characters read as decimal digits, in 16 bits, whatever they are. */
  function Read3(s: string): nat
    requires |s| == 3
  {
    ((s[0] as int - 48) * 100 + (s[1] as int - 48) * 10 + (s[2] as int - 48)) % 0x1_0000
  }

  /** The status of a header block; None when it is missing or malformed. */
  function BlockStatus(block: Block): Option<nat> {
    match Lookup(block, ":status")
    case None => None
    case Some(v) => if |v| == 3 && Read3(v) >= 100 then Some(Read3(v)) else None
  }

  /** Copy one field, Content-Type apart and Content-Length dropped. */
  function CopyField(m: Message, field: (string, string)): Message {
    var (name, value) := field;
    if name != "" && name[0] == ':' then m
    else if EqualIgnoreCase(name, "content-type") then m.(contentType := value)
    else if EqualIgnoreCase(name, "content-length") then m
    else m.(fields := m.fields + [field])
  }

  function Copied(m: Message, block: Block): Message
    decreases |block|
  {
    if block == [] then m else Copied(CopyField(m, block[0]), block[1..])
  }

  function AddBlock(e: Exchange, block: Block, endStream: bool): Exchange {
    e.(msg := Copied(e.msg, block), responseComplete := e.responseComplete || endStream)
  }

  function OnHeaders(e: Exchange, id: nat, block: Block, endStream: bool): Exchange {
    if id != e.streamId || !e.attached then e
    else if e.finalHeadersSeen then AddBlock(e, block, endStream)
    else
      match BlockStatus(block)
      case None => Fail(e, Malformed)
      case Some(status) =>
        if status < 200 then e
        else AddBlock(e.(msg := e.msg.(status := status), finalHeadersSeen := true), block, endStream)
  }

  function OnData(e: Exchange, id: nat, data: string, endStream: bool): Exchange {
    if id != e.streamId || !e.attached then e
    else
      var e := e.(responseComplete := e.responseComplete || endStream);
      if data == "" || e.failure != NoFailure then e
      else if |e.msg.body| + |data| > e.limit then Fail(e, TooBig)
      else e.(msg := e.msg.(body := e.msg.body + data))
  }

  function OnReset(e: Exchange, id: nat): Exchange {
    if id == e.streamId && e.attached then Fail(e, StreamReset) else e
  }

  function OnClosed(e: Exchange, id: nat): Exchange {
    if id == e.streamId then e.(streamClosed := true) else e
  }

  function OnGoAway(e: Exchange, last: nat): Exchange {
    if e.streamId > last && !e.streamClosed && e.attached then Fail(e, StreamRefused) else e
  }

  function OnCall(e: Exchange, call: Call): Exchange {
    match call
    case HeadersCall(id, block, endStream) => OnHeaders(e, id, block, endStream)
    case DataCall(id, data, endStream) => OnData(e, id, data, endStream)
    case ResetCall(id) => OnReset(e, id)
    case ClosedCall(id) => OnClosed(e, id)
    case GoAwayCall(last) => OnGoAway(e, last)
  }

  function Deliver(e: Exchange, calls: seq<Call>): Exchange {
    if calls == [] then e else OnCall(Deliver(e, calls[..|calls| - 1]), calls[|calls| - 1])
  }

  // ------------------------------------------- callbacks over every run of peer frames

  predicate Foreign(call: Call, id: nat) { call.GoAwayCall? || call.id != id }

  /** Frames of other streams, and any frame once detached, leave the response alone. */
  lemma {:induction false} LateFramesIgnored(e: Exchange, calls: seq<Call>)
    requires !e.attached || forall i :: 0 <= i < |calls| ==> Foreign(calls[i], e.streamId)
    ensures var e' := Deliver(e, calls);
            && e'.msg == e.msg && e'.finalHeadersSeen == e.finalHeadersSeen && e'.responseComplete == e.responseComplete
            && e'.attached == e.attached && e'.streamId == e.streamId
    ensures !e.attached ==> Deliver(e, calls).failure == e.failure
  {
    if calls != [] { LateFramesIgnored(e, calls[..|calls| - 1]); }
  }

  lemma {:induction false} CopyKeepsBody(m: Message, block: Block)
    ensures Copied(m, block).body == m.body && Copied(m, block).status == m.status
    decreases |block|
  {
    if block != [] {
      CopyKeepsBody(CopyField(m, block[0]), block[1..]);
    }
  }

  /** What a callback adds to the body of a healthy exchange. */
  function Arrived(call: Call, id: nat): string { if call.DataCall? && call.id == id then call.data else "" }

  /** A callback neither moves the exchange to another stream nor forgets a failure or an end. */
  ghost predicate Keeps(e: Exchange, e': Exchange) {
    && e'.streamId == e.streamId && e'.attached == e.attached && e'.limit == e.limit
    && (e.failure != NoFailure ==> e'.failure == e.failure)
    && (e.responseComplete ==> e'.responseComplete) && (e.streamClosed ==> e'.streamClosed)
    && (|e.msg.body| <= e.limit ==> |e'.msg.body| <= e.limit)
  }

  lemma HeadersOnce(e: Exchange, id: nat, block: Block, endStream: bool)
    ensures var e' := OnHeaders(e, id, block, endStream); Keeps(e, e') && e'.msg.body == e.msg.body
  {
    hide Copied, BlockStatus;
    CopyKeepsBody(e.msg, block);
    if BlockStatus(block).Some? { CopyKeepsBody(e.msg.(status := BlockStatus(block).value), block); }
  }

  lemma CallOnce(e: Exchange, call: Call)
    ensures Keeps(e, OnCall(e, call))
    ensures e.attached && OnCall(e, call).failure == NoFailure ==>
              OnCall(e, call).msg.body == e.msg.body + Arrived(call, e.streamId)
  {
    hide OnHeaders;
    if call.HeadersCall? { HeadersOnce(e, call.id, call.block, call.endStream); }
  }

  /** Over any run of callbacks the first failure stands and the body stays within its limit. */
  lemma {:induction false} DeliverKeeps(e: Exchange, calls: seq<Call>)
    ensures Keeps(e, Deliver(e, calls))
  {
    hide OnCall;
    if calls != [] {
      DeliverKeeps(e, calls[..|calls| - 1]);
      CallOnce(Deliver(e, calls[..|calls| - 1]), calls[|calls| - 1]);
    }
  }

  /** The bytes the peer delivered on a stream. */
  function DataFor(calls: seq<Call>, id: nat): string {
    if calls == [] then "" else DataFor(calls[..|calls| - 1], id) + Arrived(calls[|calls| - 1], id)
  }

  /** While nothing failed, the body is exactly what arrived on the stream, in order. */
  lemma {:induction false} BodyIsWhatArrived(e: Exchange, calls: seq<Call>)
    requires e.attached && Deliver(e, calls).failure == NoFailure
    ensures Deliver(e, calls).msg.body == e.msg.body + DataFor(calls, e.streamId)
  {
    hide OnCall, Arrived;
    if calls != [] {
      var init := calls[..|calls| - 1];
      DeliverKeeps(e, init);
      CallOnce(Deliver(e, init), calls[|calls| - 1]);
      BodyIsWhatArrived(e, init);
    }
  }

  predicate EndsResponse(call: Call, id: nat) {
    ((call.HeadersCall? || call.DataCall?) && call.id == id && call.endStream) || (call.ClosedCall? && call.id == id)
  }

  /** The response counts as complete only once the peer ended or closed the stream. */
  lemma {:induction false} CompleteMeansEnded(e: Exchange, calls: seq<Call>)
    requires !e.responseComplete && !e.streamClosed
    requires Deliver(e, calls).responseComplete || Deliver(e, calls).streamClosed
    ensures exists i :: 0 <= i < |calls| && EndsResponse(calls[i], e.streamId)
  {
    hide Copied, BlockStatus;
    var init, last := calls[..|calls| - 1], calls[|calls| - 1];
    var e0 := Deliver(e, init);
    DeliverKeeps(e, init);
    if e0.responseComplete || e0.streamClosed {
      CompleteMeansEnded(e, init);
      var i :| 0 <= i < |init| && EndsResponse(init[i], e.streamId);
      assert calls[i] == init[i];
    } else {
      assert EndsResponse(calls[|calls| - 1], e.streamId);
    }
  }

  predicate EndsMessage(call: Call, id: nat) {
    (call.HeadersCall? || call.DataCall?) && call.id == id && call.endStream
  }

  /** A response is complete only by a message callback that ends it. */
  lemma {:induction false} CompleteBy(e: Exchange, calls: seq<Call>)
    requires Deliver(e, calls).responseComplete && !e.responseComplete
    ensures exists i :: 0 <= i < |calls| && EndsMessage(calls[i], e.streamId)
  {
    hide Copied, BlockStatus;
    var init := calls[..|calls| - 1];
    DeliverKeeps(e, init);
    if Deliver(e, init).responseComplete {
      CompleteBy(e, init);
      var i :| 0 <= i < |init| && EndsMessage(init[i], e.streamId);
      assert EndsMessage(calls[i], e.streamId);
    } else {
      assert EndsMessage(calls[|calls| - 1], e.streamId);
    }
  }

  /** A complete response whose stream was not reported closed: the peer has ended the stream. */
  ghost predicate AnswerTaken(c: Conn, e: Exchange, id: nat) {
    e.responseComplete && !e.streamClosed ==> Frames.PeerDone(c, id)
  }

  lemma AnswerStep(c: Conn, f: PeerFrame, e: Exchange)
    requires Sound(c) && AnswerTaken(c, e, e.streamId)
    ensures AnswerTaken(Receive(c, f).conn, Deliver(e, Receive(c, f).calls), e.streamId)
  {
    hide Receive, Deliver, Sound, Frames.PeerDone, QuietlyFollows, Frames.Takes;
    var r, id := Receive(c, f), e.streamId;
    var e' := Deliver(e, r.calls);
    DeliverKeeps(e, r.calls);
    if e'.responseComplete && !e'.streamClosed {
      if ClosedCall(id) in r.calls { ClosedIsSeen(e, r.calls); }
      if !e.responseComplete {
        CompleteBy(e, r.calls);
        var i :| 0 <= i < |r.calls| && EndsMessage(r.calls[i], id);
        Frames.FrameHeard(c, f);
        EndingFrame(c, f, r.calls[i], id);
      }
      Frames.FrameKeepsDone(c, f, id);
    }
  }

  lemma EndingFrame(c: Conn, f: PeerFrame, call: Call, id: nat)
    requires EndsMessage(call, id) && c.phase != Dead && call in Frames.CallsSaid(c, f)
    ensures Frames.Takes(c, f) && Frames.EndsStream(f) && Frames.FrameId(f) == id
  {
    hide Frames.Takes, Frames.Resets;
  }

  // ------------------------------------------------------------------- the engine

  const MAX_STREAM_ID: nat := 0x7FFF_FFFF
  const MAX_DATA_PER_FLUSH: nat := 65536

  function Started(id: nat, limit: nat): Exchange {
    Exchange(id, true, limit, NoFailure, false, false, false, Message(0, [], "", ""))
  }

  lemma {:induction false} DeliverMore(e: Exchange, calls: seq<Call>, more: seq<Call>)
    ensures Deliver(e, calls + more) == Deliver(Deliver(e, calls), more)
    decreases |more|
  {
    hide OnCall;
    if more == [] {
      assert calls + more == calls;
    } else {
      var n := |more| - 1;
      DeliverMore(e, calls, more[..n]);
      assert (calls + more)[..|calls + more| - 1] == calls + more[..n];
    }
  }

  /** The connection is what a fresh one became through these orderly steps. */
  ghost predicate Lived(c: Conn, localMaxConcurrent: nat, steps: seq<Step>) {
    c == After(FreshConn(localMaxConcurrent), steps) && Orderly(FreshConn(localMaxConcurrent), steps)
  }

  lemma LivedSound(c: Conn, localMaxConcurrent: nat, steps: seq<Step>)
    requires Lived(c, localMaxConcurrent, steps)
    ensures Sound(c)
  {
    hide After, Sound, Orderly;
    OrderlyIsProper(FreshConn(localMaxConcurrent), steps);
    RunExact(localMaxConcurrent, steps, 1);
  }

  /** Nothing was queued yet on an id above those opened. */
  lemma LivedBlank(c: Conn, localMaxConcurrent: nat, steps: seq<Step>, id: nat)
    requires Lived(c, localMaxConcurrent, steps) && id > Top(steps)
    ensures DataOn(c.output, id) == "" && EndStreams(c.output, id) == 0
  {
    hide After, DataOn, EndStreams, Orderly, InHand;
    OrderlyIsTidy(localMaxConcurrent, steps, id);
  }

  lemma {:induction false} ClosedIsSeen(e: Exchange, calls: seq<Call>)
    requires ClosedCall(e.streamId) in calls
    ensures Deliver(e, calls).streamClosed
  {
    hide OnHeaders, OnData;
    var init, last := calls[..|calls| - 1], calls[|calls| - 1];
    DeliverKeeps(e, init);
    if ClosedCall(e.streamId) in init {
      ClosedIsSeen(e, init);
      CallOnce(Deliver(e, init), last);
    } else {
      assert calls == init + [last];
    }
  }

  /** Client stream ids in order: 1, 3, 5, ... */
  ghost predicate OddIds(used: seq<nat>) {
    forall i :: 0 <= i < |used| ==> used[i] == 2 * i + 1 <= 0x7FFF_FFFF
  }

  datatype Outcome = Complete(msg: Message, keepAlive: bool) | Broken

  class Http2ClientEngine {
    const maxStreams: nat
    const localMaxConcurrent: nat
    var conn: Conn
    var ex: Exchange
    var nextStreamId: nat
    var goAwayReceived: bool
    var pending: string
    ghost var used: seq<nat>
    ghost var usedAtGoAway: nat
    ghost var begun: nat
    ghost var steps: seq<Step>
    ghost var wire: string

    ghost function Start(): Conn { FreshConn(localMaxConcurrent) }

    /** What holds over the whole life of a connection. */
    ghost predicate Valid()
      reads this
    {
      && Lived(conn, localMaxConcurrent, steps) && Top(steps) < nextStreamId
      && OddIds(used) && nextStreamId == 2 * |used| + 1
      && (maxStreams != 0 ==> |used| <= maxStreams)
      && (goAwayReceived ==> |used| == usedAtGoAway)
    }

    constructor (maxStreams: nat, localMaxConcurrent: nat)
      ensures Valid() && used == [] && !goAwayReceived && !ex.attached && wire == ""
      ensures this.maxStreams == maxStreams && this.localMaxConcurrent == localMaxConcurrent
    {
      this.maxStreams, this.localMaxConcurrent := maxStreams, localMaxConcurrent;
      conn := FreshConn(localMaxConcurrent);
      ex := Started(0, 0).(attached := false);
      nextStreamId, goAwayReceived, pending := 1, false, "";
      used, usedAtGoAway, begun, steps, wire := [], 0, 0, [], "";
    }

    /**
     Whether a pooled connection can host one more exchange: it runs, no GOAWAY came, and the
     exchanges so far leave an id and, under a budget, a place for another.
     */
    function Reusable(): (r: bool)
      reads this
      ensures Valid() ==>
                (r <==> && conn.phase == Running && !goAwayReceived && 2 * |used| + 1 <= MAX_STREAM_ID
                        && (maxStreams == 0 || |used| < maxStreams))
    {
      && conn.phase == Running && !goAwayReceived && nextStreamId <= MAX_STREAM_ID
      && (maxStreams == 0 || (nextStreamId - 1) / 2 < maxStreams)
    }

    /**
     What a caller may rely on: over the whole life of a reusable connection the peer has sent
     a SETTINGS frame and no GOAWAY, and the next exchange gets the next odd id, within the id space
     and the budget.
     */
    lemma ReusableMeans()
      requires Valid() && Reusable()
      ensures exists i :: 0 <= i < |steps| && IsSetting(steps[i])
      ensures forall i :: 0 <= i < |steps| ==> !IsGoAway(steps[i])
      ensures OddIds(used + [nextStreamId]) && (maxStreams != 0 ==> |used + [nextStreamId]| <= maxStreams)
    {
      RunningMeans(Start(), steps);
    }

    /** Send budget: the smaller of the two windows, none for an unknown stream or where one is used up. */
    function SendWindow(id: nat): (n: nat)
      reads this`conn
      ensures n == 0 <==> id !in conn.streams || conn.window <= 0 || conn.streams[id].window <= 0
      ensures n > 0 ==> n <= conn.window && n <= conn.streams[id].window
      ensures n > 0 ==> n == conn.window || n == conn.streams[id].window
    {
      if id !in conn.streams then 0
      else
        var w := if conn.streams[id].window < conn.window then conn.streams[id].window else conn.window;
        if w < 0 then 0 else w
    }

    method BeginExchange(limit: nat) returns (id: nat)
      requires Valid() && (used == [] || Reusable()) && !goAwayReceived
      modifies this`ex, this`nextStreamId, this`used
      ensures Valid() && id == old(nextStreamId) == nextStreamId - 2 && used == old(used) + [id]
      ensures ex == Started(id, limit)
      ensures Top(steps) < id && DataOn(conn.output, id) == "" && EndStreams(conn.output, id) == 0
    {
      hide Lived, DataOn, EndStreams;
      id := nextStreamId;
      LivedBlank(conn, localMaxConcurrent, steps, id);
      ex := Started(id, limit);
      nextStreamId := nextStreamId + 2;
      used := used + [id];
    }

    /** A step of the connection. */
    method Advance(s: Step) returns (r: Received)
      requires Valid() && Allowed(Start(), steps, s) && (s.Headers? ==> s.id < nextStreamId)
      modifies this`conn, this`steps
      ensures Valid() && r == Act(old(conn), s) && conn == r.conn && steps == old(steps) + [s]
    {
      hide Act, Allowed, OddIds, Orderly;
      HistoryGrows(Start(), steps, s, |steps|);
      r := Act(conn, s);
      conn, steps := r.conn, steps + [s];
    }

    // ------------------------------------------------------------- callbacks

    method SetFailure(f: Failure)
      modifies this`ex
      ensures ex == Fail(old(ex), f)
    {
      if ex.failure == NoFailure { ex := ex.(failure := f); }
    }

    method HandleHeaders(id: nat, block: Block, endStream: bool)
      modifies this`ex
      ensures ex == OnHeaders(old(ex), id, block, endStream)
    {
      hide Copied, Lookup, Read3;
      if id != ex.streamId || !ex.attached { return; }
      if !ex.finalHeadersSeen {
        var value := Lookup(block, ":status");
        if value.None? || |value.value| != 3 {
          SetFailure(Malformed);
          return;
        }
        var status := Read3(value.value);
        if status < 100 {
          SetFailure(Malformed);
          return;
        }
        if status < 200 { return; }
        ex := ex.(msg := ex.msg.(status := status), finalHeadersSeen := true);
      }
      CopyFields(block);
      if endStream { ex := ex.(responseComplete := true); }
    }

    method CopyFields(block: Block)
      modifies this`ex
      ensures ex == old(ex).(msg := Copied(old(ex).msg, block))
    {
      assert block[0..] == block;
      for i := 0 to |block|
        invariant ex == old(ex).(msg := ex.msg)
        invariant Copied(ex.msg, block[i..]) == Copied(old(ex).msg, block)
      {
        var (name, value) := block[i];
        assert block[i..][0] == block[i] && block[i..][1..] == block[i + 1..];
        if name != "" && name[0] == ':' { continue; }
        if EqualIgnoreCase(name, "content-type") {
          ex := ex.(msg := ex.msg.(contentType := value));
          continue;
        }
        if EqualIgnoreCase(name, "content-length") { continue; }
        ex := ex.(msg := ex.msg.(fields := ex.msg.fields + [(name, value)]));
      }
      assert block[|block|..] == [];
    }

    method HandleData(id: nat, data: string, endStream: bool)
      modifies this`ex
      ensures ex == OnData(old(ex), id, data, endStream)
    {
      if id != ex.streamId || !ex.attached { return; }
      if endStream { ex := ex.(responseComplete := true); }
      if data == "" || ex.failure != NoFailure { return; }
      if |ex.msg.body| + |data| > ex.limit {
        SetFailure(TooBig);
        return;
      }
      ex := ex.(msg := ex.msg.(body := ex.msg.body + data));
    }

    /** One callback of the connection. */
    method Handle(call: Call)
      requires Valid()
      modifies this`ex, this`goAwayReceived, this`usedAtGoAway
      ensures Valid() && ex == OnCall(old(ex), call)
    {
      hide OnHeaders, OnData, Lived, OddIds;
      match call
      case HeadersCall(id, block, endStream) => HandleHeaders(id, block, endStream);
      case DataCall(id, data, endStream) => HandleData(id, data, endStream);
      case ResetCall(id) => if id == ex.streamId && ex.attached { SetFailure(StreamReset); }
      case ClosedCall(id) => if id == ex.streamId { ex := ex.(streamClosed := true); }
      case GoAwayCall(last) =>
        if !goAwayReceived { usedAtGoAway := |used|; }
        goAwayReceived := true;
        if ex.streamId > last && !ex.streamClosed && ex.attached { SetFailure(StreamRefused); }
    }

    method HandleAll(calls: seq<Call>)
      requires Valid()
      modifies this`ex, this`goAwayReceived, this`usedAtGoAway
      ensures Valid() && ex == Deliver(old(ex), calls)
    {
      hide OnCall, Lived, OddIds;
      for i := 0 to |calls|
        invariant Valid() && ex == Deliver(old(ex), calls[..i])
      {
        assert calls[..i + 1][..i] == calls[..i];
        Handle(calls[i]);
      }
      assert calls[..|calls|] == calls;
    }

    // -------------------------------------------------------------------- I/O

    /** What the peer has said since the exchange began. */
    ghost function Heard(): seq<Call>
      reads this`steps, this`begun
    {
      PeerCalls(Start(), steps, begun)
    }

    /** The exchange on stream `id` has queued `off` bytes of `body`, and its END_STREAM or not. */
    ghost predicate InFlight(id: nat, limit: nat, body: string, off: nat, ended: bool)
      reads this
    {
      && Valid() && 0 < id == nextStreamId - 2 && begun <= |steps| && ex == Deliver(Started(id, limit), Heard())
      && off <= |body| && DataOn(conn.output, id) == body[..off]
      && EndStreams(conn.output, id) == (if ended then 1 else 0)
      && Top(steps) <= id && (Top(steps) == id && TopClosed(Start(), steps) ==> ex.streamClosed)
      && AnswerTaken(conn, ex, id)
    }

    /**
     Write what is pending; waiting is bounded. The bytes go out in order, and `requestSent`
     records any that did.
     */
    method FlushOutput(patience: nat, requestSent: bool) returns (ok: bool, sent: bool)
      modifies this`pending, this`wire
      ensures wire + pending == old(wire + pending) && old(wire) <= wire && (ok ==> pending == "")
      ensures sent == (requestSent || |wire| > |old(wire)|)
    {
      sent := requestSent;
      var waits := patience;
      while pending != ""
        invariant wire + pending == old(wire + pending) && old(wire) <= wire
        invariant sent == (requestSent || |wire| > |old(wire)|)
        decreases |pending|, waits
      {
        var n: nat :| n <= |pending|;
        if n > 0 {
          assert wire + pending[..n] + pending[n..] == wire + pending;
          wire := wire + pending[..n];
          pending := pending[n..];
          sent := true;
          continue;
        }
        var failed: bool := *;
        if failed || waits == 0 { return false, sent; }
        waits := waits - 1;
      }
      return true, sent;
    }

    /** Queue more bytes; which is the frame codec's business. */
    method Queue()
      modifies this`pending
      ensures |pending| > |old(pending)| && old(pending) <= pending
    {
      var bytes: string := *;
      pending := pending + ['\0'] + bytes;
    }

    /** Process one frame of the peer. */
    method ReceiveFrame(f: PeerFrame,
                        ghost id: nat, ghost limit: nat, ghost body: string, ghost off: nat, ghost ended: bool)
      returns (ok: bool)
      requires InFlight(id, limit, body, off, ended)
      modifies this`conn, this`steps, this`ex, this`goAwayReceived, this`usedAtGoAway, this`pending
      ensures InFlight(id, limit, body, off, ended) && old(steps) <= steps && Top(steps) == old(Top(steps))
    {
      hide Lived, OddIds, DataOn, EndStreams, Receive, Deliver, OnCall, After, PeerCalls, TopClosed, Top, Orderly,
           QuietlyFollows, Keeps, Started, AnswerTaken, Sound;
      LivedIs(conn, localMaxConcurrent, steps);
      LivedSound(conn, localMaxConcurrent, steps);
      SameStream(id, limit, Heard());
      AnswerStep(conn, f, ex);
      HistoryGrows(Start(), steps, FromPeer(f), begun);
      CallsSeen(id, limit, Heard(), Receive(conn, f).calls);
      QuietMeaning(conn, Receive(conn, f).conn, id);
      var r := Advance(FromPeer(f));
      HandleAll(r.calls);
      Queue();
      return r.ok;
    }

    /** Read and process frames of the peer, whatever they are. */
    method ReadAndProcess(ghost id: nat, ghost limit: nat, ghost body: string, ghost off: nat, ghost ended: bool)
      returns (ok: bool)
      requires InFlight(id, limit, body, off, ended)
      modifies this`conn, this`steps, this`ex, this`goAwayReceived, this`usedAtGoAway, this`pending
      ensures InFlight(id, limit, body, off, ended) && old(steps) <= steps && Top(steps) == old(Top(steps))
    {
      hide Lived, OddIds, DataOn, EndStreams, Deliver, PeerCalls, TopClosed, Top;
      var frames: int := *;
      while frames > 0
        invariant InFlight(id, limit, body, off, ended) && old(steps) <= steps && Top(steps) == old(Top(steps))
      {
        var f: PeerFrame := *;
        var processed := ReceiveFrame(f, id, limit, body, off, ended);
        if !processed { return false; }
        frames := frames - 1;
      }
      ok := *;
    }

    /** Queue request headers or trailers; an ended stream takes none. */
    method QueueHeaders(id: nat, endStream: bool,
                        ghost limit: nat, ghost body: string, ghost off: nat, ghost ended: bool)
      returns (ok: bool)
      requires InFlight(id, limit, body, off, ended) && !ex.streamClosed && (ended ==> Top(steps) == id)
      modifies this`conn, this`steps, this`pending
      ensures ok ==> !ended && InFlight(id, limit, body, off, endStream) && pending != ""
      ensures !ok ==> InFlight(id, limit, body, off, ended)
      ensures steps == old(steps) + [Headers(id, endStream)] && Top(steps) == id
    {
      hide Lived, OddIds, DataOn, EndStreams, SendHeaders, Deliver, OnCall, After, PeerCalls, TopClosed, Top, Orderly,
           Sound, Receive, QuietlyFollows, AnswerTaken;
      LivedSound(conn, localMaxConcurrent, steps);
      LivedIs(conn, localMaxConcurrent, steps);
      SendAnswer(conn, ex, id, "", endStream);
      if ended { EndedIsClosed(localMaxConcurrent, steps, id); }
      SendHeadersMeaning(conn, id, endStream, id);
      HistoryGrows(Start(), steps, Headers(id, endStream), begun);
      var r := Advance(Headers(id, endStream));
      if r.ok { Queue(); }
      return r.ok;
    }

    /** Queue a piece of the body. */
    method QueueData(id: nat, data: string, endStream: bool, ghost limit: nat, ghost body: string, ghost off: nat)
      returns (ok: bool)
      requires InFlight(id, limit, body, off, false) && Top(steps) == id && !ex.streamClosed
      requires off + |data| <= |body| && data == body[off..off + |data|]
      modifies this`conn, this`steps, this`pending
      ensures ok ==> InFlight(id, limit, body, off + |data|, endStream)
      ensures !ok ==> InFlight(id, limit, body, off, false)
      ensures old(steps) <= steps && Top(steps) == id
    {
      hide Lived, OddIds, DataOn, EndStreams, SendData, Deliver, OnCall, After, PeerCalls, TopClosed, Top, Orderly,
           Sound, Receive, QuietlyFollows, AnswerTaken;
      LivedSound(conn, localMaxConcurrent, steps);
      LivedIs(conn, localMaxConcurrent, steps);
      SendAnswer(conn, ex, id, data, endStream);
      SendDataMeaning(conn, id, data, endStream, id);
      HistoryGrows(Start(), steps, Data(id, data, endStream), begun);
      assert body[..off] + data == body[..off + |data|];
      var r := Advance(Data(id, data, endStream));
      if r.ok { Queue(); }
      return r.ok;
    }

    /** Detach, so that late frames cannot touch the response. */
    method EndExchange()
      modifies this`ex
      ensures ex == old(ex).(attached := false)
    {
      ex := ex.(attached := false);
    }

    predicate Healthy()
      reads this`ex
    {
      ex.failure == NoFailure && !(ex.responseComplete || ex.streamClosed)
    }

    /**
     Send the body under flow control until it is out, the exchange fails or the peer has
     answered. END_STREAM rides on the last piece unless trailers follow. A file body may be
     read short. `finished` is false when a read or a send broke the upload off.
     */
    method Upload(id: nat, body: string, isFile: bool, hasTrailers: bool, patience: nat, ghost limit: nat)
      returns (off: nat, ended: bool, io: bool, finished: bool, sent: bool)
      requires InFlight(id, limit, body, 0, body == "") && Top(steps) == id && pending != ""
      modifies this`conn, this`steps, this`ex, this`goAwayReceived, this`usedAtGoAway, this`pending, this`wire
      ensures InFlight(id, limit, body, off, ended) && Top(steps) == id && old(steps) <= steps
      ensures ended <==> off == |body| && (body == "" || !hasTrailers)
      ensures old(wire) <= wire && sent == (|wire| > |old(wire)|) && (io ==> sent)
    {
      hide Lived, OddIds, Deliver, DataOn, EndStreams, PeerCalls, TopClosed, Top;
      off, ended := 0, body == "";
      var waits := patience;
      io, sent := FlushOutput(waits, false);
      while io && off < |body| && Healthy()
        invariant InFlight(id, limit, body, off, ended) && Top(steps) == id && old(steps) <= steps
        invariant ended <==> off == |body| && (body == "" || !hasTrailers)
        invariant old(wire) <= wire && sent == (|wire| > |old(wire)|) && (io ==> sent)
        decreases |body| - off, waits
      {
        var window := SendWindow(id);
        if window == 0 {
          if waits == 0 { return off, ended, false, true, sent; }
          io := ReadAndProcess(id, limit, body, off, ended);
          waits := waits - 1;
          continue;
        }
        var attempt := Least(|body| - off, window, MAX_DATA_PER_FLUSH);
        var size := attempt;
        if isFile {
          size :| 0 <= size <= attempt;
          if size == 0 { return off, ended, io, false, sent; }
        }
        var endStream := off + size == |body| && !hasTrailers;
        var queued := QueueData(id, body[off..off + size], endStream, limit, body, off);
        if !queued { return off, ended, io, false, sent; }
        ended := ended || endStream;
        off := off + size;
        io, sent := FlushOutput(waits, sent);
      }
      finished := true;
    }

    /** Pump frames until the response is in, the exchange fails or patience runs out. */
    method AwaitResponse(id: nat, patience: nat, sentBefore: bool,
                         ghost limit: nat, ghost body: string, ghost off: nat, ghost ended: bool)
      returns (io: bool, sent: bool)
      requires InFlight(id, limit, body, off, ended)
      modifies this`conn, this`steps, this`ex, this`goAwayReceived, this`usedAtGoAway, this`pending, this`wire
      ensures InFlight(id, limit, body, off, ended) && old(steps) <= steps && Top(steps) == old(Top(steps))
      ensures io ==> ex.failure != NoFailure || ex.responseComplete || ex.streamClosed
      ensures old(wire) <= wire && sent == (sentBefore || |wire| > |old(wire)|)
    {
      hide Lived, OddIds, Deliver, DataOn, EndStreams, PeerCalls, TopClosed, Top;
      io, sent := true, sentBefore;
      var waits := patience;
      while io && Healthy()
        invariant InFlight(id, limit, body, off, ended) && old(steps) <= steps && Top(steps) == old(Top(steps))
        invariant old(wire) <= wire && sent == (sentBefore || |wire| > |old(wire)|)
        decreases waits, io
      {
        if waits == 0 { return false, sent; }
        io, sent := FlushOutput(waits, sent);
        if io { io := ReadAndProcess(id, limit, body, off, ended); }
        waits := waits - 1;
      }
    }

    /** After a response: account for the finished stream, or abort its open half. */
    method SettleStream(id: nat, ended: bool)
      requires Valid() && id != 0 && !ex.attached && begun <= |steps|
      requires ended && !ex.streamClosed ==> Frames.PeerDone(conn, id) && SendClosed(conn.streams[id].state)
      modifies this`conn, this`steps, this`ex, this`goAwayReceived, this`usedAtGoAway, this`pending
      ensures Valid() && !ex.attached && ex.msg == old(ex).msg && ex.failure == old(ex).failure
      ensures old(ex).streamClosed || id !in Frames.InFlight(conn)
      ensures old(steps) <= steps && Heard() == old(Heard())
      ensures DataOn(conn.output, id) == old(DataOn(conn.output, id))
      ensures EndStreams(conn.output, id) == old(EndStreams(conn.output, id))
    {
      hide Lived, OddIds, DataOn, EndStreams, Deliver, OnCall, SendRst, FinalizeSendClosed, After, PeerCalls,
           TopClosed, Top, Orderly, Receive, QuietlyFollows, Sound;
      if ex.streamClosed { return; }
      LivedSound(conn, localMaxConcurrent, steps);
      Frames.SettledBy(conn, id, ended);
      var step := if ended then Finalize(id) else Reset(id);
      QuietMeaning(conn, Act(conn, step).conn, id);
      HistoryGrows(Start(), steps, step, begun);
      LateFramesIgnored(ex, Act(conn, step).calls);
      var r := Advance(step);
      HandleAll(r.calls);
      if !ended { Queue(); }
    }

    /** Queue the connection preface if it is due, take a stream and queue the request head. */
    method OpenStream(body: string, limit: nat) returns (id: nat, ok: bool)
      requires Valid() && (used == [] || Reusable()) && !goAwayReceived
      modifies this`conn, this`steps, this`ex, this`nextStreamId, this`used, this`pending, this`begun
      ensures used == old(used) + [old(nextStreamId)] && id == old(nextStreamId)
      ensures begun == |old(steps)| && old(steps) <= steps && Top(steps) == id
      ensures InFlight(id, limit, body, 0, ok && body == "") && (ok ==> pending != "")
    {
      hide Lived, OddIds, DataOn, EndStreams, Deliver, OnCall, After, PeerCalls, TopClosed, Top, Orderly, Receive,
           QuietlyFollows;
      begun := |steps|;
      PrefaceIsQuiet(conn);
      HistoryGrows(Start(), steps, Preface, begun);
      NothingHeard(Start(), steps);
      if conn.phase == AwaitingPreface { Queue(); }
      var _ := Advance(Preface);
      id := BeginExchange(limit);
      Nothing(limit, id);
      ok := QueueHeaders(id, body == "", limit, body, 0, false);
    }

    /** Body, then trailers; the trailers carry END_STREAM and the body does not when there are any. */
    method SendBody(id: nat, body: string, isFile: bool, hasTrailers: bool, patience: nat, ghost limit: nat)
      returns (off: nat, ended: bool, io: bool, finished: bool, sent: bool, trailersSent: bool)
      requires InFlight(id, limit, body, 0, body == "") && Top(steps) == id && pending != ""
      modifies this`conn, this`steps, this`ex, this`goAwayReceived, this`usedAtGoAway, this`pending, this`wire
      ensures InFlight(id, limit, body, off, ended) && EndsProperly(body, hasTrailers, off, ended, trailersSent)
      ensures old(wire) <= wire && sent == (|wire| > |old(wire)|) && old(steps) <= steps && (io ==> sent)
      ensures Top(steps) == id
    {
      hide Lived, OddIds, DataOn, EndStreams, Deliver, PeerCalls, TopClosed, Top;
      trailersSent := false;
      off, ended, io, finished, sent := Upload(id, body, isFile, hasTrailers, patience, limit);
      if finished && hasTrailers && io && off == |body| && Healthy() {
        var queued := QueueHeaders(id, true, limit, body, off, ended);
        if !queued { return off, ended, io, false, sent, false; }
        ended, trailersSent := true, true;
        io, sent := FlushOutput(patience, sent);
      }
    }

    /**
     One exchange. It uses the next stream id once; what it queued on that stream is a prefix
     of the body, and END_STREAM at most once, after the whole body: with the headers of an
     empty body, with the last DATA, or with the trailers and nowhere else when there are
     any. A complete response is what the callbacks for the peer's frames of this very
     exchange assemble, and its stream is then reported closed or no longer in flight.
     */
    method RunExchange(body: string, isFile: bool, hasTrailers: bool, limit: nat, patience: nat)
      returns (outcome: Outcome, off: nat, ended: bool, requestSent: bool, trailersSent: bool)
      requires Valid() && (used == [] || Reusable()) && !goAwayReceived
      modifies this
      ensures Valid() && used == old(used) + [old(nextStreamId)] && !ex.attached && old(steps) <= steps
      ensures off <= |body| && DataOn(conn.output, old(nextStreamId)) == body[..off]
      ensures EndStreams(conn.output, old(nextStreamId)) == (if ended then 1 else 0)
      ensures EndsProperly(body, hasTrailers, off, ended, trailersSent)
      ensures old(wire) <= wire && requestSent == (|wire| > |old(wire)|) && (outcome.Complete? ==> requestSent)
      ensures var calls := PeerCalls(FreshConn(localMaxConcurrent), steps, |old(steps)|);
              outcome.Complete? ==> CompletedBy(Deliver(Started(old(nextStreamId), limit), calls), outcome.msg)
      ensures outcome.Complete? && outcome.keepAlive ==> Reusable() && pending == ""
      ensures var calls := PeerCalls(FreshConn(localMaxConcurrent), steps, |old(steps)|);
              outcome.Complete? ==> Deliver(Started(old(nextStreamId), limit), calls).streamClosed
                                    || old(nextStreamId) !in Frames.InFlight(conn)
    {
      hide Lived, OddIds, DataOn, EndStreams, Deliver, PeerCalls, TopClosed, Top, AnswerTaken, Frames.InFlight;
      var id, ready := OpenStream(body, limit);
      off, ended, requestSent, trailersSent := 0, ready && body == "", false, false;
      if !ready {
        EndExchange();
        return Broken, off, ended, requestSent, trailersSent;
      }
      var io, finished;
      off, ended, io, finished, requestSent, trailersSent := SendBody(id, body, isFile, hasTrailers, patience, limit);
      if finished && io {
        io, requestSent := AwaitResponse(id, patience, requestSent, limit, body, off, ended);
      }
      if !finished || !io || ex.failure != NoFailure {
        EndExchange();
        return Broken, off, ended, requestSent, trailersSent;
      }
      outcome, requestSent := Finish(id, ended, patience, requestSent, limit, body, off);
    }

    /** Hand over the response, settle the stream and flush what is left to say about it. */
    method Finish(id: nat, ended: bool, patience: nat, sentBefore: bool,
                  ghost limit: nat, ghost body: string, ghost off: nat)
      returns (outcome: Outcome, sent: bool)
      requires InFlight(id, limit, body, off, ended) && Top(steps) == id && (ex.responseComplete || ex.streamClosed)
      modifies this`conn, this`steps, this`ex, this`goAwayReceived, this`usedAtGoAway, this`pending, this`wire
      ensures Valid() && !ex.attached && outcome.Complete? && outcome.msg == old(ex).msg
      ensures outcome.keepAlive ==> Reusable() && pending == ""
      ensures old(steps) <= steps && Heard() == old(Heard())
      ensures old(ex).streamClosed || id !in Frames.InFlight(conn)
      ensures DataOn(conn.output, id) == old(DataOn(conn.output, id))
      ensures EndStreams(conn.output, id) == old(EndStreams(conn.output, id))
      ensures old(wire) <= wire && sent == (sentBefore || |wire| > |old(wire)|)
    {
      hide Lived, OddIds, DataOn, EndStreams, PeerCalls, Top, TopClosed, Deliver, Orderly, After, Frames.PeerDone;
      sent := sentBefore;
      var msg := ex.msg;
      LivedIs(conn, localMaxConcurrent, steps);
      if ended && !ex.streamClosed { EndedIsClosed(localMaxConcurrent, steps, id); }
      EndExchange();
      SettleStream(id, ended);
      var clean := true;
      if pending != "" {
        clean, sent := FlushOutput(patience, sent);
      }
      outcome := Complete(msg, clean && Reusable());
    }
  }

  /** END_STREAM only after the whole body, and on the trailers alone when they follow a body. */
  predicate EndsProperly(body: string, hasTrailers: bool, off: nat, ended: bool, trailersSent: bool) {
    && (ended ==> off == |body|) && (trailersSent ==> ended && hasTrailers)
    && (ended && hasTrailers && body != "" ==> trailersSent)
    && (off == |body| && body != "" && !hasTrailers ==> ended)
  }

  /** The callbacks ended the exchange without failure and left this message. */
  predicate CompletedBy(e: Exchange, msg: Message) {
    e.msg == msg && e.failure == NoFailure && (e.responseComplete || e.streamClosed)
  }

  // ------------------------------------------------------- the response as a whole

  predicate IsFinal(block: Block) { BlockStatus(block).Some? && BlockStatus(block).value >= 200 }

  /** The header blocks of a stream from the first final one on: the head and the trailers. */
  function FinalBlocks(calls: seq<Call>, id: nat): seq<Block> {
    if calls == [] then []
    else
      var before, c := FinalBlocks(calls[..|calls| - 1], id), calls[|calls| - 1];
      if c.HeadersCall? && c.id == id && (before != [] || IsFinal(c.block)) then before + [c.block] else before
  }

  /** Fields and content type of all those blocks. */
  function FieldsOf(blocks: seq<Block>): Message {
    if blocks == [] then Message(0, [], "", "") else Copied(FieldsOf(blocks[..|blocks| - 1]), blocks[|blocks| - 1])
  }

  function StatusOf(blocks: seq<Block>): nat {
    if blocks != [] && BlockStatus(blocks[0]).Some? then BlockStatus(blocks[0]).value else 0
  }

  /** The response that callbacks spell out on a stream. */
  function ResponseOf(calls: seq<Call>, id: nat): Message {
    var blocks := FinalBlocks(calls, id);
    FieldsOf(blocks).(status := StatusOf(blocks), body := DataFor(calls, id))
  }

  lemma {:induction false} CopyKeepsRest(m: Message, block: Block, status: nat, body: string)
    ensures Copied(m.(status := status, body := body), block) == Copied(m, block).(status := status, body := body)
    decreases |block|
  {
    if block != [] {
      CopyKeepsRest(CopyField(m, block[0]), block[1..], status, body);
    }
  }

  lemma FieldsOfMore(blocks: seq<Block>, block: Block)
    ensures FieldsOf(blocks + [block]) == Copied(FieldsOf(blocks), block)
    ensures blocks != [] ==> StatusOf(blocks + [block]) == StatusOf(blocks)
  {
    hide Copied, BlockStatus;
    assert (blocks + [block])[..|blocks|] == blocks;
  }

  /** One more callback of a healthy exchange adds to the response what it says. */
  lemma ResponseGrows(e: Exchange, calls: seq<Call>, c: Call)
    requires e.attached && e.msg == ResponseOf(calls, e.streamId)
    requires e.finalHeadersSeen == (FinalBlocks(calls, e.streamId) != []) && OnCall(e, c).failure == NoFailure
    ensures OnCall(e, c).msg == ResponseOf(calls + [c], e.streamId)
    ensures OnCall(e, c).finalHeadersSeen == (FinalBlocks(calls + [c], e.streamId) != [])
  {
    hide OnHeaders, FieldsOf, StatusOf, IsFinal;
    assert (calls + [c])[..|calls|] == calls;
    CallOnce(e, c);
    if c.HeadersCall? { BlockGrows(e, FinalBlocks(calls, e.streamId), c); }
  }

  /** A header block of the stream joins the final ones, or is skipped as interim. */
  lemma BlockGrows(e: Exchange, blocks: seq<Block>, c: Call)
    requires e.attached && c.HeadersCall? && e.finalHeadersSeen == (blocks != [])
    requires e.msg == FieldsOf(blocks).(status := StatusOf(blocks), body := e.msg.body)
    requires OnHeaders(e, c.id, c.block, c.endStream).failure == NoFailure
    ensures var e' := OnHeaders(e, c.id, c.block, c.endStream);
            var joins := c.id == e.streamId && (blocks != [] || IsFinal(c.block));
            var blocks' := if joins then blocks + [c.block] else blocks;
            && e'.msg == FieldsOf(blocks').(status := StatusOf(blocks'), body := e.msg.body)
            && e'.finalHeadersSeen == (blocks' != [])
  {
    hide Copied, BlockStatus, FieldsOf, StatusOf;
    if c.id == e.streamId {
      FieldsOfMore(blocks, c.block);
      FirstStatus(c.block);
      assert [] + [c.block] == [c.block];
      CopyKeepsRest(FieldsOf(blocks), c.block, StatusOf(blocks), e.msg.body);
      CopyKeepsRest(FieldsOf(blocks), c.block, StatusOf([c.block]), e.msg.body);
    }
  }

  lemma FirstStatus(block: Block)
    ensures StatusOf([]) == 0 && (BlockStatus(block).Some? ==> StatusOf([block]) == BlockStatus(block).value)
  {
  }

  /** While nothing failed, the message is the response the callbacks spell out. */
  lemma {:induction false} ResponseIsWhatArrived(id: nat, limit: nat, calls: seq<Call>)
    requires Deliver(Started(id, limit), calls).failure == NoFailure
    ensures var e := Deliver(Started(id, limit), calls);
            e.msg == ResponseOf(calls, id) && e.finalHeadersSeen == (FinalBlocks(calls, id) != [])
  {
    hide OnCall, ResponseOf, FinalBlocks;
    if calls == [] {
      NoResponseYet(id);
    } else {
      var init, c := calls[..|calls| - 1], calls[|calls| - 1];
      DeliverKeeps(Started(id, limit), init);
      CallOnce(Deliver(Started(id, limit), init), c);
      ResponseIsWhatArrived(id, limit, init);
      ResponseGrows(Deliver(Started(id, limit), init), init, c);
      assert calls == init + [c];
    }
  }

  lemma NoResponseYet(id: nat)
    ensures ResponseOf([], id) == Message(0, [], "", "") && FinalBlocks([], id) == []
  {
  }

  /**
   What a completed response is: exactly what the callbacks spell out on the stream, its body
   within the limit, ended by the peer; it carries a status of the peer's if and only if a
   final header block was among them.
   */
  lemma CompletedMeaning(id: nat, limit: nat, calls: seq<Call>, msg: Message)
    requires CompletedBy(Deliver(Started(id, limit), calls), msg)
    ensures msg == ResponseOf(calls, id) && |msg.body| <= limit && msg.body == DataFor(calls, id)
    ensures exists i :: 0 <= i < |calls| && EndsResponse(calls[i], id)
    ensures msg.status >= 200 <==> exists i :: 0 <= i < |calls| && SaysStatus(calls[i], id)
  {
    hide Deliver, DataFor, EndsResponse, FinalBlocks, FieldsOf, StatusOf, SaysStatus;
    var e := Started(id, limit);
    DeliverKeeps(e, calls);
    ResponseIsWhatArrived(id, limit, calls);
    CompleteMeansEnded(e, calls);
    StatusSaid(calls, id);
  }

  predicate SaysStatus(c: Call, id: nat) { c.HeadersCall? && c.id == id && IsFinal(c.block) }

  lemma {:induction false} StatusSaid(calls: seq<Call>, id: nat)
    ensures FinalBlocks(calls, id) != [] ==> IsFinal(FinalBlocks(calls, id)[0])
    ensures FinalBlocks(calls, id) != [] <==> exists i :: 0 <= i < |calls| && SaysStatus(calls[i], id)
    ensures StatusOf(FinalBlocks(calls, id)) >= 200 <==> FinalBlocks(calls, id) != []
  {
    hide BlockStatus;
    if calls != [] {
      var init, c := calls[..|calls| - 1], calls[|calls| - 1];
      StatusSaid(init, id);
      assert forall i :: 0 <= i < |init| ==> calls[i] == init[i];
      if i :| 0 <= i < |init| && SaysStatus(init[i], id) { assert SaysStatus(calls[i], id); }
      if SaysStatus(c, id) { assert SaysStatus(calls[|calls| - 1], id); }
    }
  }

  /** A lone DATA frame that ends the stream completes an exchange without any status. */
  lemma HeadlessResponse()
    ensures CompletedBy(Deliver(Started(1, 10), [DataCall(1, "x", true)]), Message(0, [], "", "x"))
  {
    assert [DataCall(1, "x", true)][..0] == [];
    assert Deliver(Started(1, 10), []) == Started(1, 10);
  }

  lemma Nothing(limit: nat, id: nat)
    ensures Deliver(Started(id, limit), []) == Started(id, limit)
  {
  }

  lemma NothingHeard(c: Conn, steps: seq<Step>)
    ensures PeerCalls(c, steps, |steps|) == []
  {
  }

  function Least(a: nat, b: nat, c: nat): (r: nat)
    ensures r <= a && r <= b && r <= c && (r == a || r == b || r == c)
  {
    if a <= b && a <= c then a else if b <= c then b else c
  }

  /** More callbacks: the same exchange goes on, and a close among them is noticed. */
  lemma CallsSeen(id: nat, limit: nat, heard: seq<Call>, more: seq<Call>)
    ensures var e := Deliver(Started(id, limit), heard);
            var e' := Deliver(e, more);
            && e' == Deliver(Started(id, limit), heard + more)
            && (e.streamClosed || ClosedCall(id) in more ==> e'.streamClosed)
  {
    hide Deliver;
    var e := Deliver(Started(id, limit), heard);
    DeliverMore(Started(id, limit), heard, more);
    DeliverKeeps(Started(id, limit), heard);
    DeliverKeeps(e, more);
    if ClosedCall(id) in more { ClosedIsSeen(e, more); }
  }

  lemma SameStream(id: nat, limit: nat, calls: seq<Call>)
    ensures Deliver(Started(id, limit), calls).streamId == id
  {
    DeliverKeeps(Started(id, limit), calls);
  }

  lemma SendAnswer(c: Conn, e: Exchange, id: nat, data: string, endStream: bool)
    requires AnswerTaken(c, e, id)
    ensures AnswerTaken(SendHeaders(c, id, endStream).conn, e, id)
    ensures AnswerTaken(SendData(c, id, data, endStream).conn, e, id)
  {
    hide SendHeaders, SendData, Frames.PeerDone;
    if e.responseComplete && !e.streamClosed { Frames.SendingKeepsDone(c, id, data, endStream, id); }
  }

  lemma LivedIs(c: Conn, localMaxConcurrent: nat, steps: seq<Step>)
    requires Lived(c, localMaxConcurrent, steps)
    ensures c == After(FreshConn(localMaxConcurrent), steps) && Orderly(FreshConn(localMaxConcurrent), steps)
  {
  }
}
