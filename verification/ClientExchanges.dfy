/**
 One exchange on an open connection, over HTTP/1.1 or HTTP/2, as the client driver sees
 it: the answer or the failure, and what of the request really reached the wire.
 */
module ClientExchanges {
  import opened Text
  import opened HttpRequests
  import Parsing = ResponseParsing
  import Http11 = Http11Connection
  import Http2 = Http2Engines
  import H2 = Http2Connections
  import opened ParserTexts
  import Lines = ParserHead
  import Messages = ParserMessages

  /** What the driver reads of a response. */
  datatype Reply = Reply(status: nat, retryAfter: string, location: string)

  datatype Exchanged = Answered(reply: Reply, keepAlive: bool) | Broken(requestSent: bool)

  /** The request as it goes out: its head, and its body from memory or from a file. */
  datatype Outgoing = Outgoing(m: Method, head: string, body: string, fromFile: bool, trailers: bool)

  const RETRY_AFTER: string := "retry-after"
  const LOCATION: string := "location"

  function ReplyOf(status: nat, fields: seq<Parsing.Header>): Reply {
    Reply(status, Parsing.HeaderValueOrEmpty(fields, RETRY_AFTER), Parsing.HeaderValueOrEmpty(fields, LOCATION))
  }

  /** What an answer was read from: bytes and perhaps their end, or the callbacks for a stream. */
  datatype Heard = Bytes(text: string, eof: bool) | Calls(id: nat, calls: seq<H2.Call>)

  /** A reply holds this status and, by name, the first of these fields. */
  ghost predicate Reads(status: nat, fields: seq<Parsing.Header>, reply: Reply) {
    && reply.status == status
    && ValueOfFirst(fields, "Retry-After", reply.retryAfter) && ValueOfFirst(fields, "Location", reply.location)
  }

  /** What was heard in answer to a request of method `m` says this reply, and over HTTP/1.1 whether to persist. */
  ghost predicate Says(heard: Heard, m: Method, limit: nat, reply: Reply, keepAlive: bool) {
    match heard
    case Bytes(text, eof) =>
      var r := Parsing.ParseRun(Parsing.Fresh(m == HEAD, Parsing.EMPTY_RESPONSE), text, eof, limit, None);
      && r.status == Parsing.Complete && Reads(r.state.resp.status, r.state.resp.headers, reply)
      && keepAlive == r.state.body.keepAlive
    case Calls(id, calls) =>
      var msg := Http2.ResponseOf(calls, id);
      && Http2.CompletedBy(Http2.Deliver(Http2.Started(id, limit), calls), msg)
      && Reads(msg.status, Fields(msg.fields), reply)
  }

  lemma ReplyReads(status: nat, fields: seq<Parsing.Header>)
    ensures Reads(status, fields, ReplyOf(status, fields))
  {
    hide ValueOfFirst, Lower, Parsing.HeaderValueOrEmpty;
    LowerIs("Retry-After", RETRY_AFTER);
    LowerIs("Location", LOCATION);
    FirstValue(fields, "Retry-After", RETRY_AFTER);
    FirstValue(fields, "Location", LOCATION);
  }

  /**
   In letters: whatever the lines and the body, if the peer's bytes are a response of this code, the
   reply carries that code, the first Location and Retry-After lines, and persistence as the text says.
   */
  lemma SaidInLetters(m: Method, major: nat, minor: nat, code: nat, reason: string, fields: seq<Lines.FieldLine>,
                      b: Messages.BodyText, rest: string, eof: bool, limit: nat, reply: Reply, keepAlive: bool)
    requires 1 <= major <= 9 && minor <= 9 && 200 <= code <= 599 && IsLine(reason) && ReadableLines(fields)
    requires FitsText(m == HEAD, code, fields, b) && (b.ToTheEnd? ==> eof && rest == "")
    requires |Lines.RenderHead(HeadOf(Version(major, minor), code, reason, fields))| <= limit
    requires |Messages.BodyBytes(b)| <= limit
    requires var head := Lines.RenderHead(HeadOf(Version(major, minor), code, reason, fields));
             Says(Bytes(head + Messages.RenderBody(b) + rest, eof), m, limit, reply, keepAlive)
    ensures Reads(code, KeptLines(fields), reply)
    ensures keepAlive <==> KeepAliveInText(FramingInText(m == HEAD, code, fields), Version(major, minor), fields)
  {
    hide Parsing.ParseRun, Lines.RenderHead, Messages.RenderBody, Version, KeptLines, Reads, FitsText, ReadableLines,
         KeepAliveInText, FramingInText;
    MessageInText(m == HEAD, major, minor, code, reason, fields, b, rest, eof, limit);
  }

  /** What the driver is told about sending is what happened on the wire. */
  predicate Truthful(result: Exchanged, wire: string) {
    match result
    case Answered(_, _) => wire != ""
    case Broken(requestSent) => requestSent <==> wire != ""
  }

  lemma NothingSent(out: Outgoing, limit: nat, http2: bool)
    ensures BearsOut(Trip("", http2, Bytes("", false)), out, limit, Broken(false))
  {
  }

  /** What one exchange left behind: the bytes on the wire, the protocol, and what was heard. */
  datatype Trip = Trip(wire: string, http2: bool, heard: Heard)

  /** The trip bears out the result: the bytes sent, and the answer if there is one. */
  ghost predicate BearsOut(trip: Trip, out: Outgoing, limit: nat, result: Exchanged) {
    && Truthful(result, trip.wire)
    && (!trip.http2 ==> WiredAs(out, trip.wire, result.Answered?))
    && (result.Answered? ==>
          (trip.heard.Calls? <==> trip.http2) && Says(trip.heard, out.m, limit, result.reply, result.keepAlive))
  }

  function PayloadOf(out: Outgoing): Http11.Payload {
    if out.fromFile then Http11.FilePart(out.body, 0, |out.body|) else Http11.InMemory(out.body)
  }

  /** What HTTP/1.1 may put on the wire: a prefix of the request, all of it when it is answered. */
  ghost predicate WiredAs(out: Outgoing, wire: string, answered: bool) {
    out.trailers || (wire <= out.head + out.body && (answered ==> wire == out.head + out.body))
  }

  /**
   Over HTTP/1.1 the wire gets a prefix of the request, whatever the transport does, and the
   answer is what one parse of the bytes received says. A request with trailers goes out as
   another text, that of a chunked copy, of which any non-empty one stands here.
   */
  method OverHttp11(request: Outgoing, limit: nat, incoming: string, wakeUps: nat)
    returns (result: Exchanged, ghost wire: string, ghost heard: Heard)
    requires request.head != ""
    ensures Truthful(result, wire) && WiredAs(request, wire, result.Answered?)
    ensures result.Answered? ==>
              && heard.Bytes? && heard.text <= incoming
              && Says(heard, request.m, limit, result.reply, result.keepAlive)
  {
    hide Parsing.HeaderValueOrEmpty, Parsing.ParseRun, Reads, ReplyOf;
    heard := Bytes("", false);
    var out := request;
    if request.trailers {
      var copy: string := *;
      out := Outgoing(request.m, request.head[..1] + copy, "", false, true);
    }
    var channel := new Http11.Channel(incoming, wakeUps);
    var sendfile: bool := *;
    var sent, requestSent;
    ghost var count;
    BytesOf(out);
    sent, requestSent, count := Http11.SendRequest(channel, out.head, PayloadOf(out), sendfile);
    wire := channel.wire;
    if sent != Http11.Ok {
      return Broken(requestSent), wire, heard;
    }
    var answer;
    ghost var eof;
    answer, eof := Http11.ReadResponse(channel, out.m == HEAD, None, limit);
    heard := Bytes(channel.received, eof);
    if answer.Failure? {
      return Broken(requestSent), wire, heard;
    }
    var response := answer.value;
    ReplyReads(response.resp.status, response.resp.headers);
    result := Answered(ReplyOf(response.resp.status, response.resp.headers), response.keepAlive);
  }

  /** From memory or from a file, the bytes of a request are its head and its body. */
  lemma BytesOf(out: Outgoing)
    ensures Http11.RequestBytes(out.head, PayloadOf(out)) == out.head + out.body
  {
    assert out.body[0..|out.body|] == out.body;
  }

  function Fields(block: seq<(string, string)>): seq<Parsing.Header> {
    seq(|block|, i requires 0 <= i < |block| => Parsing.Header(block[i].0, block[i].1))
  }

  /**
   Over HTTP/2 the bytes are the engine's; the flag says exactly whether there were any. The
   answer is what the peer's frames of this exchange spell out on its stream.
   */
  method OverHttp2(engine: Http2.Http2ClientEngine, out: Outgoing, limit: nat, patience: nat)
    returns (result: Exchanged, ghost wire: string, ghost heard: Heard)
    requires engine.Valid() && (engine.used == [] || engine.Reusable()) && !engine.goAwayReceived
    modifies engine
    ensures engine.Valid() && Truthful(result, wire)
    ensures engine.wire == old(engine.wire) + wire
    ensures result.Answered? && result.keepAlive ==> engine.Reusable()
    ensures result.Answered? ==>
              && heard == Calls(old(engine.nextStreamId),
                   H2.PeerCalls(H2.FreshConn(engine.localMaxConcurrent), engine.steps, |old(engine.steps)|))
              && Says(heard, out.m, limit, result.reply, result.keepAlive)
  {
    hide Parsing.HeaderValueOrEmpty, H2.PeerCalls, Reads, ReplyOf, Http2.Deliver, Http2.ResponseOf;
    ghost var before, id := engine.wire, engine.nextStreamId;
    var outcome, off, ended, requestSent, trailersSent :=
      engine.RunExchange(out.body, out.fromFile, out.trailers, limit, patience);
    wire := engine.wire[|before|..];
    heard := Calls(id, H2.PeerCalls(H2.FreshConn(engine.localMaxConcurrent), engine.steps, |old(engine.steps)|));
    if outcome.Broken? {
      return Broken(requestSent), wire, heard;
    }
    Http2.CompletedMeaning(id, limit, heard.calls, outcome.msg);
    ReplyReads(outcome.msg.status, Fields(outcome.msg.fields));
    result := Answered(ReplyOf(outcome.msg.status, Fields(outcome.msg.fields)), outcome.keepAlive);
  }
}
