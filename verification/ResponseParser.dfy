/**
 The incremental HTTP/1.x response parser of the client.

 The specification is a small-step machine over an immutable snapshot of the
 parser (`ParserState`): `Step` consumes one line, one piece of body or one chunk,
 and `ParseRun` iterates it over the bytes accumulated so far.  The class
 `ResponseParser` at the end is the code's own shape -- fields updated in nested
 loops -- and each of its methods is proved to compute the corresponding run.
 */
module ResponseParsing {
  import opened Text

  // ---------------------------------------------------------------- the data

  datatype Status = NeedMore | Complete | Error

  datatype Phase =
    | StatusLine | Headers
    | BodyLength | BodyChunkSize | BodyChunkData | BodyChunkCrlf | BodyChunkTrailers | BodyUntilClose
    | Done

  datatype Framing = NoBody | Length | Chunked | UntilClose

  datatype Header = Header(name: string, value: string)

  datatype Payload = Payload(bytes: string, contentType: string)

  /** The part of `HttpResponse` the parser fills in. */
  datatype HttpResponse = HttpResponse(
    status: nat,
    reason: string,
    headers: seq<Header>,
    payload: Option<Payload>)

  const EMPTY_RESPONSE := HttpResponse(200, "", [], None)

  /** Body decompression: content encoding and bytes to decoded bytes, or failure. */
  type Codec = (string, string) -> Option<string>

  const CONTENT_TYPE := "content-type"
  const CONTENT_LENGTH := "content-length"
  const CONTENT_ENCODING := "content-encoding"
  const TRANSFER_ENCODING := "transfer-encoding"
  const CONNECTION := "connection"
  const OCTET_STREAM := "application/octet-stream"

  /** What the status line and the header block have said so far. */
  datatype HeadInfo = HeadInfo(
    headRequest: bool,
    statusCode: nat,
    http11: bool,
    closeSeen: bool,
    keepAliveSeen: bool,
    hasContentLength: bool,
    chunked: bool,
    contentTypeOff: nat,    // where the Content-Type value sits in the buffer ...
    contentTypeLen: nat)    // ... and its length, 0 when absent

  /** How the body is delimited and how much of it has been taken. */
  datatype BodyInfo = BodyInfo(
    start: nat,             // offset of the first body byte
    remaining: nat,         // bytes left in the body (Length) or in the current chunk
    framing: Framing,
    keepAlive: bool,
    buf: string)            // de-framed chunks

  /** A snapshot of every field of the parser, and of the response it fills. */
  datatype ParserState = ParserState(
    pos: nat,               // absolute cursor into the accumulated buffer
    phase: Phase,
    head: HeadInfo,
    body: BodyInfo,
    resp: HttpResponse)
  {
    predicate InHead() { phase.StatusLine? || phase.Headers? }

    predicate InChunks() {
      phase.BodyChunkSize? || phase.BodyChunkData? || phase.BodyChunkCrlf? || phase.BodyChunkTrailers?
    }

    /** What every call leaves true of the fields, over a buffer of `size` bytes. */
    ghost predicate Valid(size: nat) {
      && pos <= size
      && head.contentTypeOff + head.contentTypeLen <= pos
      && (phase.Headers? ==> 100 <= head.statusCode <= 599)
      && (!InHead() ==> 200 <= head.statusCode <= 599 && body.start <= pos)
      && (InChunks() ==> body.framing.Chunked?)
      && (phase.BodyLength? ==> body.framing.Length? && body.remaining > 0)
      && (phase.BodyUntilClose? ==> body.framing.UntilClose?)
      && (phase.BodyChunkData? ==> body.remaining > 0)
    }
  }

  /** The state `reset` leaves, for a response object `resp`. */
  function Fresh(headRequest: bool, resp: HttpResponse): ParserState {
    ParserState(0, StatusLine,
                HeadInfo(headRequest, 0, false, false, false, false, false, 0, 0),
                BodyInfo(0, 0, NoBody, false, ""),
                resp)
  }

  /** One step either goes on in a new state or ends the call with a status. */
  datatype Outcome = Next(s: ParserState) | Halt(status: Status, s: ParserState)

  datatype ParseResult = ParseResult(status: Status, state: ParserState)

  // ---------------------------------------------------------- pure helpers

  function ChopCr(line: string): (r: string)
    ensures |r| <= |line| && r == line[..|r|]
  {
    if line != [] && line[|line| - 1] == '\r' then line[..|line| - 1] else line
  }

  /** Single-digit major.minor at offsets 5 and 7 of an eight-byte token. */
  predicate ValidVersion(token: string) {
    |token| == 8 && '1' <= token[5] <= '9' && token[6] == '.' && '0' <= token[7] <= '9'
  }

  function LastTransferEncodingIsChunked(value: string): bool {
    EqualIgnoreCase(TrimOws(value[AfterLast(value, ',')..]), "chunked")
  }

  /** Whether a comma-separated list holds a token, compared trimmed and caseless. */
  predicate HasToken(list: string, token: string)
    decreases |list|
  {
    list != [] &&
    var comma := Find(list, ',');
    || EqualIgnoreCase(TrimOws(list[..comma]), token)
    || (comma < |list| && HasToken(list[comma + 1..], token))
  }

  /** First value stored under a name, or the empty string. */
  function HeaderValueOrEmpty(headers: seq<Header>, name: string): string {
    if headers == [] then ""
    else if EqualIgnoreCase(headers[0].name, name) then headers[0].value
    else HeaderValueOrEmpty(headers[1..], name)
  }

  /** `headerRemoveLine` searches backwards: the last line of that name goes. */
  function RemoveHeaderLine(headers: seq<Header>, name: string): seq<Header> {
    if headers == [] then []
    else
      var last := |headers| - 1;
      if EqualIgnoreCase(headers[last].name, name) then headers[..last]
      else RemoveHeaderLine(headers[..last], name) + [headers[last]]
  }

  /** `resp.body(bytes, contentType)`: an empty body carries no body headers. */
  function WithBody(resp: HttpResponse, bytes: string, contentType: string): HttpResponse {
    resp.(payload := if bytes == [] then None else Some(Payload(bytes, contentType)))
  }

  // ------------------------------------------------------------- the machine

  function ContentTypeOf(head: HeadInfo, buffer: string): string
    requires head.contentTypeOff + head.contentTypeLen <= |buffer|
  {
    if head.contentTypeLen == 0 then OCTET_STREAM
    else buffer[head.contentTypeOff..head.contentTypeOff + head.contentTypeLen]
  }

  /** The body before any content decoding, once the cursor is at `end`. */
  function RawBody(body: BodyInfo, buffer: string, end: nat): string
    requires body.start <= end <= |buffer|
  {
    if body.framing == Chunked then body.buf else buffer[body.start..end]
  }

  /** Put the finished body into the response; None when it cannot be decoded. */
  function Installed(s: ParserState, buffer: string, codec: Option<Codec>): Option<HttpResponse>
    requires s.Valid(|buffer|) && !s.InHead()
  {
    if s.body.framing == NoBody then Some(s.resp)
    else
      var bytes := RawBody(s.body, buffer, s.pos);
      var contentType := ContentTypeOf(s.head, buffer);
      var encoding := HeaderValueOrEmpty(s.resp.headers, CONTENT_ENCODING);
      if codec.Some? && encoding != [] then
        match codec.value(encoding, bytes)
        case None => None
        case Some(decoded) =>
          var stripped := s.resp.(headers := RemoveHeaderLine(s.resp.headers, CONTENT_ENCODING));
          Some(WithBody(stripped, decoded, contentType))
      else Some(WithBody(s.resp, bytes, contentType))
  }

  function InstallBody(s: ParserState, buffer: string, codec: Option<Codec>): (r: ParseResult)
    requires s.Valid(|buffer|) && !s.InHead()
    ensures r.status != NeedMore
    ensures r.state.pos == s.pos && r.state.phase == s.phase && r.state.head == s.head && r.state.body == s.body
  {
    match Installed(s, buffer, codec)
    case None => ParseResult(Error, s)
    case Some(resp) => ParseResult(Complete, s.(resp := resp))
  }

  /** Consume the status line `line`; the cursor of `s` is already past it. */
  function StatusLineStep(s: ParserState, line: string): (r: Outcome)
    ensures r.s.pos == s.pos && r.s.body == s.body
    ensures r.s.head.contentTypeOff == s.head.contentTypeOff && r.s.head.contentTypeLen == s.head.contentTypeLen
    ensures r.Next? ==> r.s.phase == Headers && 100 <= r.s.head.statusCode <= 599
    ensures r.Halt? ==> r.status == Error && r.s.phase == s.phase
  {
    var sp1 := Find(line, ' ');
    if sp1 == |line| || !ValidVersion(line[..sp1]) then Halt(Error, s)
    else
      var h := s.head.(http11 := line[5] == '1' && line[7] == '1');
      var rest := line[sp1 + 1..];
      var sp2 := Find(rest, ' ');
      match FromChars(rest[..sp2], 10, UINT16_MAX)
      case None => Halt(Error, s.(head := h))
      case Some(code) =>
        if code < 100 || code > 599 then Halt(Error, s.(head := h.(statusCode := code)))
        else
          var reason := if sp2 < |rest| then TrimOws(rest[sp2 + 1..]) else s.resp.reason;
          Next(s.(phase := Headers, head := h.(statusCode := code),
                  resp := s.resp.(status := code, reason := reason)))
  }

  datatype HeaderKind = ContentType | ContentLength | TransferEncoding | Connection | Other

  function KindOf(name: string): HeaderKind {
    if EqualIgnoreCase(name, CONTENT_TYPE) then ContentType
    else if EqualIgnoreCase(name, CONTENT_LENGTH) then ContentLength
    else if EqualIgnoreCase(name, TRANSFER_ENCODING) then TransferEncoding
    else if EqualIgnoreCase(name, CONNECTION) then Connection
    else Other
  }

  /** Record one field whose untrimmed value sits at offset `off` of the buffer. */
  function FieldStep(s: ParserState, name: string, raw: string, off: nat): (r: Outcome)
    requires off + |raw| <= s.pos
    requires s.head.contentTypeOff + s.head.contentTypeLen <= s.pos
    ensures r.s.pos == s.pos && r.s.phase == s.phase && r.s.head.statusCode == s.head.statusCode
    ensures r.s.head.contentTypeOff + r.s.head.contentTypeLen <= s.pos
    ensures r.Halt? ==> r.status == Error
  {
    var value := TrimOws(raw);
    match KindOf(name)
    case ContentType =>
      Next(s.(head := s.head.(contentTypeOff := off + OwsStart(raw), contentTypeLen := |value|)))
    case ContentLength =>
      (match FromChars(value, 10, SIZE_MAX)
       case None => Halt(Error, s)
       case Some(len) => Next(s.(head := s.head.(hasContentLength := true),
                                 body := s.body.(remaining := len))))
    case TransferEncoding =>
      Next(s.(head := s.head.(chunked := LastTransferEncodingIsChunked(value))))
    case Connection =>
      Next(s.(head := s.head.(closeSeen := s.head.closeSeen || HasToken(value, "close"),
                              keepAliveSeen := s.head.keepAliveSeen || HasToken(value, "keep-alive")),
              resp := s.resp.(headers := s.resp.headers + [Header(name, value)])))
    case Other =>
      Next(s.(resp := s.resp.(headers := s.resp.headers + [Header(name, value)])))
  }

  /** Consume a non-empty header line that began at offset `lineStart`. */
  function HeaderStep(s: ParserState, line: string, lineStart: nat): (r: Outcome)
    requires lineStart + |line| <= s.pos
    requires s.head.contentTypeOff + s.head.contentTypeLen <= s.pos
    ensures r.s.pos == s.pos && r.s.phase == s.phase && r.s.head.statusCode == s.head.statusCode
    ensures r.s.head.contentTypeOff + r.s.head.contentTypeLen <= s.pos
    ensures r.Halt? ==> r.status == Error
  {
    var colon := Find(line, ':');
    if colon == |line| || colon == 0 then Halt(Error, s)
    else FieldStep(s, line[..colon], line[colon + 1..], lineStart + colon + 1)
  }

  /** Choose the body framing once the blank line has been consumed. */
  function FramingDecision(s: ParserState): (r: Outcome)
    ensures r.s.pos == s.pos && r.s.head == s.head
    ensures r.Halt? ==> r.status == Complete && r.s.phase == Done
    ensures !r.s.InHead() && r.s.body.start == s.pos
  {
    var h := s.head;
    var keepAlive := if h.closeSeen then false else if h.keepAliveSeen then true else h.http11;
    var b := s.body.(start := s.pos, keepAlive := keepAlive);
    if h.headRequest || h.statusCode == 204 || h.statusCode == 304 then
      Halt(Complete, s.(phase := Done, body := b.(framing := NoBody)))
    else if h.chunked then
      Next(s.(phase := BodyChunkSize, body := b.(framing := Chunked)))
    else if h.hasContentLength then
      if b.remaining == 0 then Halt(Complete, s.(phase := Done, body := b.(framing := Length)))
      else Next(s.(phase := BodyLength, body := b.(framing := Length)))
    else
      Next(s.(phase := BodyUntilClose, body := b.(framing := UntilClose, keepAlive := false)))
  }

  /** The blank line: restart after an interim response, frame a final one. */
  function BlankLineStep(s: ParserState): Outcome
  {
    if s.head.statusCode < 200 then
      Next(s.(phase := StatusLine,
              head := s.head.(closeSeen := false, keepAliveSeen := false, hasContentLength := false,
                              chunked := false, contentTypeLen := 0)))
    else FramingDecision(s)
  }

  /** Act on one complete head line that began at offset `lineStart`. */
  function LineStep(s: ParserState, line: string, lineStart: nat): (r: Outcome)
    requires s.InHead() && s.Valid(s.pos) && lineStart + |line| <= s.pos
    ensures r.s.pos == s.pos && r.s.Valid(s.pos)
    ensures r.Halt? ==> r.status == Error || (r.status == Complete && r.s.phase == Done)
  {
    if s.phase == StatusLine then StatusLineStep(s, line)
    else if line == [] then BlankLineStep(s)
    else HeaderStep(s, line, lineStart)
  }

  function HeadStep(s: ParserState, buffer: string, eof: bool, max: nat): (r: Outcome)
    requires s.Valid(|buffer|) && s.InHead()
    ensures r.s.Valid(|buffer|)
    ensures r.Next? ==> r.s.pos > s.pos
    ensures r.Halt? && r.status == Complete ==> r.s.phase == Done
  {
    var nl := FindFrom(buffer, '\n', s.pos);
    if nl == |buffer| then
      Halt(if |buffer| > max || eof then Error else NeedMore, s)
    else if nl + 1 > max then Halt(Error, s.(pos := nl + 1))
    else LineStep(s.(pos := nl + 1), ChopCr(buffer[s.pos..nl]), s.pos)
  }

  /** Number of body bytes one step may take out of a buffer of `size` bytes. */
  function Take(s: ParserState, size: nat): nat
    requires s.pos <= size
  {
    if size - s.pos < s.body.remaining then size - s.pos else s.body.remaining
  }

  /** The size announced by a chunk-size line, extensions and OWS dropped. */
  function ChunkSizeOf(rawLine: string): Option<nat> {
    var line := ChopCr(rawLine);
    FromChars(TrimOws(line[..Find(line, ';')]), 16, SIZE_MAX)
  }

  predicate IsBlank(line: string) { line == "" || line == "\r" }

  /** Out of input: wait for more, unless the peer has closed. */
  function Short(s: ParserState, eof: bool): Outcome {
    Halt(if eof then Error else NeedMore, s)
  }

  function LengthStep(s: ParserState, size: nat, eof: bool, max: nat): (r: Outcome)
    requires s.Valid(size) && s.phase == BodyLength
    ensures r.Halt? && r.s.Valid(size)
  {
    var take := Take(s, size);
    if s.pos - s.body.start + take > max then Halt(Error, s)
    else
      var s1 := s.(pos := s.pos + take, body := s.body.(remaining := s.body.remaining - take));
      if s1.body.remaining == 0 then Halt(Complete, s1.(phase := Done)) else Short(s1, eof)
  }

  function UntilCloseStep(s: ParserState, size: nat, eof: bool, max: nat): (r: Outcome)
    requires s.Valid(size) && s.phase == BodyUntilClose
    ensures r.Halt? && r.s.Valid(size)
  {
    if size - s.body.start > max then Halt(Error, s)
    else if eof then Halt(Complete, s.(pos := size, phase := Done))
    else Halt(NeedMore, s.(pos := size))
  }

  function ChunkSizeStep(s: ParserState, line: string, after: nat): (r: Outcome)
    requires s.pos <= after
    ensures r.Next? ==> r.s.pos == after
    ensures r.Halt? ==> r.status == Error && r.s == s
  {
    match ChunkSizeOf(line)
    case None => Halt(Error, s)
    case Some(size) =>
      if size == 0 then Next(s.(pos := after, phase := BodyChunkTrailers))
      else Next(s.(pos := after, phase := BodyChunkData, body := s.body.(remaining := size)))
  }

  /** The state after moving a piece of chunk data into the body. */
  function Taken(s: ParserState, piece: string): (r: ParserState)
    requires |piece| <= s.body.remaining
  {
    s.(pos := s.pos + |piece|, body := s.body.(remaining := s.body.remaining - |piece|, buf := s.body.buf + piece))
  }

  function ChunkDataStep(s: ParserState, buffer: string, eof: bool, max: nat): (r: Outcome)
    requires s.Valid(|buffer|) && s.phase == BodyChunkData
    ensures r.s.Valid(|buffer|)
    ensures r.Next? ==> r.s.pos > s.pos
  {
    var take := Take(s, |buffer|);
    if |s.body.buf| + take > max then Halt(Error, s)
    else
      var s1 := Taken(s, buffer[s.pos..s.pos + take]);
      if s1.body.remaining == 0 then Next(s1.(phase := BodyChunkCrlf)) else Short(s1, eof)
  }

  /** Act on a complete chunk-size, chunk-end or trailer line. */
  function ChunkLineStep(s: ParserState, line: string, after: nat): (r: Outcome)
    requires s.pos < after && s.Valid(after) && s.InChunks() && s.phase != BodyChunkData
    ensures r.s.Valid(after)
    ensures r.Next? ==> r.s.pos == after && r.s.InChunks()
    ensures r.Halt? && r.status == Complete ==> r.s.phase == Done
    ensures r.Halt? ==> r.status != NeedMore
  {
    if s.phase == BodyChunkSize then ChunkSizeStep(s, line, after)
    else if s.phase == BodyChunkCrlf then Next(s.(pos := after, phase := BodyChunkSize))
    else if IsBlank(line) then Halt(Complete, s.(pos := after, phase := Done))
    else Next(s.(pos := after))
  }

  function BodyStep(s: ParserState, buffer: string, eof: bool, max: nat): (r: Outcome)
    requires s.Valid(|buffer|) && !s.InHead() && s.phase != Done
    ensures r.s.Valid(|buffer|)
    ensures r.Next? ==> r.s.pos > s.pos && r.s.InChunks()
    ensures r.Halt? && r.status == Complete ==> r.s.phase == Done
    ensures r.Halt? && r.status != Complete ==> r.s.phase == s.phase
  {
    if s.phase == BodyLength then LengthStep(s, |buffer|, eof, max)
    else if s.phase == BodyUntilClose then UntilCloseStep(s, |buffer|, eof, max)
    else if s.phase == BodyChunkData then ChunkDataStep(s, buffer, eof, max)
    else
      var nl := FindFrom(buffer, '\n', s.pos);
      if nl == |buffer| then Short(s, eof) else ChunkLineStep(s, buffer[s.pos..nl], nl + 1)
  }

  /** Iterate the body steps of one call. */
  function BodyRun(s: ParserState, buffer: string, eof: bool, max: nat): (r: ParseResult)
    requires s.Valid(|buffer|) && !s.InHead() && s.phase != Done
    ensures r.state.Valid(|buffer|) && !r.state.InHead()
    ensures r.status == Complete ==> r.state.phase == Done
    decreases |buffer| - s.pos
  {
    match BodyStep(s, buffer, eof, max)
    case Next(s') => BodyRun(s', buffer, eof, max)
    case Halt(status, s') => ParseResult(status, s')
  }

  /** A completed body (or bodyless head) is installed into the response. */
  function Conclude(r: ParseResult, buffer: string, codec: Option<Codec>): (c: ParseResult)
    requires r.state.Valid(|buffer|)
    requires r.status == Complete ==> !r.state.InHead()
    ensures c.state.Valid(|buffer|)
    ensures c.status == NeedMore <==> r.status == NeedMore
    ensures c.state.phase == r.state.phase && c.state.pos == r.state.pos
  {
    if r.status == Complete then InstallBody(r.state, buffer, codec) else r
  }

  /** One call of `parse` on the bytes accumulated so far. */
  function ParseRun(s: ParserState, buffer: string, eof: bool, max: nat, codec: Option<Codec>): (r: ParseResult)
    requires s.Valid(|buffer|)
    ensures r.state.Valid(|buffer|)
    ensures r.status == Complete ==> r.state.phase == Done
    decreases |buffer| - s.pos
  {
    if s.phase == Done then ParseResult(Complete, s)
    else
      match (if s.InHead() then HeadStep(s, buffer, eof, max) else BodyStep(s, buffer, eof, max))
      case Next(s') => ParseRun(s', buffer, eof, max, codec)
      case Halt(status, s') => Conclude(ParseResult(status, s'), buffer, codec)
  }

  /** Past the head, a call runs the body to its end and then installs it. */
  lemma {:induction false} ParseRunIsBodyRun(
      s: ParserState, buffer: string, eof: bool, max: nat, codec: Option<Codec>)
    requires s.Valid(|buffer|) && !s.InHead() && s.phase != Done
    ensures ParseRun(s, buffer, eof, max, codec) == Conclude(BodyRun(s, buffer, eof, max), buffer, codec)
    decreases |buffer| - s.pos
  {
    var r := BodyStep(s, buffer, eof, max);
    if r.Next? {
      ParseRunIsBodyRun(r.s, buffer, eof, max, codec);
    }
  }

  // ------------------------------------------------------------ the class

  /** The parser object; its flags and body cursors are grouped as above. */
  class ResponseParser {
    var pos: nat
    var phase: Phase
    var head: HeadInfo
    var body: BodyInfo
    const codec: Option<Codec>

    function State(resp: HttpResponse): ParserState
      reads this
    {
      ParserState(pos, phase, head, body, resp)
    }

    constructor (headRequest: bool, codec: Option<Codec>)
      ensures this.codec == codec
      ensures forall resp :: State(resp) == Fresh(headRequest, resp)
    {
      pos, phase := 0, StatusLine;
      head := HeadInfo(headRequest, 0, false, false, false, false, false, 0, 0);
      body := BodyInfo(0, 0, NoBody, false, "");
      this.codec := codec;
    }

    method Reset(headRequest: bool)
      modifies this
      ensures forall resp :: State(resp) == Fresh(headRequest, resp)
    {
      pos, phase := 0, StatusLine;
      head := HeadInfo(headRequest, 0, false, false, false, false, false, 0, 0);
      body := BodyInfo(0, 0, NoBody, false, "");
    }

    /** Flag the close / keep-alive directives of one Connection value. */
    method ScanConnectionTokens(list: string)
      modifies this`head
      ensures head == old(head).(closeSeen := old(head).closeSeen || HasToken(list, "close"),
                                 keepAliveSeen := old(head).keepAliveSeen || HasToken(list, "keep-alive"))
    {
      var value := list;
      var closeSeen, keepAliveSeen := head.closeSeen, head.keepAliveSeen;
      while value != []
        invariant closeSeen || HasToken(value, "close") <==> old(head).closeSeen || HasToken(list, "close")
        invariant keepAliveSeen || HasToken(value, "keep-alive") <==>
                  old(head).keepAliveSeen || HasToken(list, "keep-alive")
        decreases |value|
      {
        var comma := Find(value, ',');
        var token := TrimOws(value[..comma]);
        if EqualIgnoreCase(token, "close") {
          closeSeen := true;
        } else if EqualIgnoreCase(token, "keep-alive") {
          keepAliveSeen := true;
        }
        if comma == |value| { break; }
        value := value[comma + 1..];
      }
      head := head.(closeSeen := closeSeen, keepAliveSeen := keepAliveSeen);
    }

    /** NeedMore means that a body follows. */
    method DecideFraming(ghost resp: HttpResponse) returns (status: Status)
      modifies this
      ensures FramingDecision(old(State(resp)))
           == if status == Complete then Halt(Complete, State(resp)) else Next(State(resp))
    {
      var keep := head.http11;
      if head.closeSeen {
        keep := false;
      } else if head.keepAliveSeen {
        keep := true;
      }
      body := body.(start := pos, keepAlive := keep);
      if head.headRequest || head.statusCode == 204 || head.statusCode == 304 {
        body := body.(framing := NoBody);
        phase := Done;
        return Complete;
      }
      if head.chunked {
        body := body.(framing := Chunked);
        phase := BodyChunkSize;
        return NeedMore;
      }
      if head.hasContentLength {
        body := body.(framing := Length);
        phase := if body.remaining == 0 then Done else BodyLength;
        return if body.remaining == 0 then Complete else NeedMore;
      }
      body := body.(framing := UntilClose, keepAlive := false);
      phase := BodyUntilClose;
      return NeedMore;
    }

    method ParseLengthBody(buffer: string, eof: bool, max: nat, ghost resp: HttpResponse)
      returns (status: Status)
      requires State(resp).Valid(|buffer|) && phase == BodyLength
      modifies this
      ensures Halt(status, State(resp)) == LengthStep(old(State(resp)), |buffer|, eof, max)
    {
      var available := |buffer| - pos;
      var take := if available < body.remaining then available else body.remaining;
      if pos - body.start + take > max { return Error; }
      pos := pos + take;
      body := body.(remaining := body.remaining - take);
      if body.remaining == 0 {
        phase := Done;
        return Complete;
      }
      return if eof then Error else NeedMore;
    }

    method ParseUntilCloseBody(buffer: string, eof: bool, max: nat, ghost resp: HttpResponse)
      returns (status: Status)
      requires State(resp).Valid(|buffer|) && phase == BodyUntilClose
      modifies this
      ensures Halt(status, State(resp)) == UntilCloseStep(old(State(resp)), |buffer|, eof, max)
    {
      var available := |buffer| - pos;
      if pos - body.start + available > max { return Error; }
      pos := pos + available;
      if eof {
        phase := Done;
        return Complete;
      }
      return NeedMore;
    }

    /** Copy what is available of the current chunk; `more` when the chunk is finished. */
    method TakeChunkData(buffer: string, eof: bool, max: nat, ghost resp: HttpResponse)
      returns (more: bool, status: Status)
      requires State(resp).Valid(|buffer|) && phase == BodyChunkData
      modifies this
      ensures ChunkDataStep(old(State(resp)), buffer, eof, max)
           == if more then Next(State(resp)) else Halt(status, State(resp))
    {
      var available := |buffer| - pos;
      var take := if available < body.remaining then available else body.remaining;
      if |body.buf| + take > max { return false, Error; }
      body := body.(remaining := body.remaining - take, buf := body.buf + buffer[pos..pos + take]);
      pos := pos + take;
      if body.remaining != 0 { return false, if eof then Error else NeedMore; }
      phase := BodyChunkCrlf;
      return true, NeedMore;
    }

    /** Act on the next chunk-size, chunk-end or trailer line; `more` unless the call ends. */
    method ConsumeChunkLine(buffer: string, eof: bool, max: nat, ghost resp: HttpResponse)
      returns (more: bool, status: Status)
      requires State(resp).Valid(|buffer|) && State(resp).InChunks() && phase != BodyChunkData
      modifies this
      ensures BodyStep(old(State(resp)), buffer, eof, max)
           == if more then Next(State(resp)) else Halt(status, State(resp))
    {
      var nl := FindFrom(buffer, '\n', pos);
      if nl == |buffer| { return false, if eof then Error else NeedMore; }
      var line := buffer[pos..nl];
      if phase == BodyChunkSize {
        var chunkSize := ChunkSizeOf(line);
        if chunkSize == None { return false, Error; }
        pos := nl + 1;
        if chunkSize.value == 0 {
          phase := BodyChunkTrailers;
        } else {
          body := body.(remaining := chunkSize.value);
          phase := BodyChunkData;
        }
      } else if phase == BodyChunkCrlf {
        pos := nl + 1;
        phase := BodyChunkSize;
      } else {
        pos := nl + 1;
        if IsBlank(line) {
          phase := Done;
          return false, Complete;
        }
      }
      return true, NeedMore;
    }

    method ParseChunks(buffer: string, eof: bool, max: nat, ghost resp: HttpResponse) returns (status: Status)
      requires State(resp).Valid(|buffer|) && State(resp).InChunks()
      modifies this
      ensures ParseResult(status, State(resp)) == BodyRun(old(State(resp)), buffer, eof, max)
    {
      while true
        invariant State(resp).Valid(|buffer|) && State(resp).InChunks()
        invariant BodyRun(State(resp), buffer, eof, max) == BodyRun(old(State(resp)), buffer, eof, max)
        decreases |buffer| - pos
      {
        ghost var s0 := State(resp);
        var more;
        if phase == BodyChunkData {
          more, status := TakeChunkData(buffer, eof, max, resp);
        } else {
          more, status := ConsumeChunkLine(buffer, eof, max, resp);
        }
        assert BodyStep(s0, buffer, eof, max) == if more then Next(State(resp)) else Halt(status, State(resp));
        if !more { return; }
      }
    }

    method ParseBody(buffer: string, eof: bool, max: nat, ghost resp: HttpResponse) returns (status: Status)
      requires State(resp).Valid(|buffer|) && !State(resp).InHead() && phase != Done
      modifies this
      ensures ParseResult(status, State(resp)) == BodyRun(old(State(resp)), buffer, eof, max)
    {
      if body.framing == Length {
        status := ParseLengthBody(buffer, eof, max, resp);
      } else if body.framing == UntilClose {
        status := ParseUntilCloseBody(buffer, eof, max, resp);
      } else {
        status := ParseChunks(buffer, eof, max, resp);
      }
    }

    method ConsumeStatusLine(line: string, resp: HttpResponse) returns (ok: bool, out: HttpResponse)
      modifies this
      ensures StatusLineStep(old(State(resp)), line)
           == if ok then Next(State(out)) else Halt(Error, State(out))
    {
      out := resp;
      var sp1 := Find(line, ' ');
      if sp1 == |line| || !ValidVersion(line[..sp1]) { return false, out; }
      head := head.(http11 := line[5] == '1' && line[7] == '1');
      var afterVersion := line[sp1 + 1..];
      var sp2 := Find(afterVersion, ' ');
      var code := FromChars(afterVersion[..sp2], 10, UINT16_MAX);
      if code == None { return false, out; }
      head := head.(statusCode := code.value);
      if code.value < 100 || code.value > 599 { return false, out; }
      out := out.(status := code.value);
      if sp2 < |afterVersion| {
        out := out.(reason := TrimOws(afterVersion[sp2 + 1..]));
      }
      phase := Headers;
      ok := true;
    }

    method ConsumeField(name: string, raw: string, off: nat, resp: HttpResponse)
      returns (ok: bool, out: HttpResponse)
      requires off + |raw| <= pos && head.contentTypeOff + head.contentTypeLen <= pos
      modifies this
      ensures FieldStep(old(State(resp)), name, raw, off)
           == if ok then Next(State(out)) else Halt(Error, State(out))
    {
      out := resp;
      var value := TrimOws(raw);
      match KindOf(name) {
        case ContentType =>
          head := head.(contentTypeOff := off + OwsStart(raw), contentTypeLen := |value|);
        case ContentLength =>
          var len := FromChars(value, 10, SIZE_MAX);
          if len == None { return false, out; }
          head := head.(hasContentLength := true);
          body := body.(remaining := len.value);
        case TransferEncoding =>
          head := head.(chunked := LastTransferEncodingIsChunked(value));
        case Connection =>
          ScanConnectionTokens(value);
          out := out.(headers := out.headers + [Header(name, value)]);
        case Other =>
          out := out.(headers := out.headers + [Header(name, value)]);
      }
      ok := true;
    }

    method ConsumeHeader(line: string, lineStart: nat, resp: HttpResponse) returns (ok: bool, out: HttpResponse)
      requires lineStart + |line| <= pos && head.contentTypeOff + head.contentTypeLen <= pos
      modifies this
      ensures HeaderStep(old(State(resp)), line, lineStart)
           == if ok then Next(State(out)) else Halt(Error, State(out))
    {
      var colon := Find(line, ':');
      if colon == |line| || colon == 0 { return false, resp; }
      ok, out := ConsumeField(line[..colon], line[colon + 1..], lineStart + colon + 1, resp);
    }

    /** The blank line ends a head; Complete when no body follows. */
    method ConsumeBlankLine(ghost resp: HttpResponse) returns (status: Status)
      modifies this
      ensures BlankLineStep(old(State(resp)))
           == if status == Complete then Halt(Complete, State(resp)) else Next(State(resp))
    {
      if head.statusCode < 200 {
        head := head.(closeSeen := false, keepAliveSeen := false, hasContentLength := false,
                      chunked := false, contentTypeLen := 0);
        phase := StatusLine;
        return NeedMore;
      }
      status := DecideFraming(resp);
    }

    /** Act on the next head line; `more` unless the call ends, before any body is installed. */
    method ConsumeHeadLine(buffer: string, eof: bool, max: nat, resp: HttpResponse)
      returns (more: bool, status: Status, out: HttpResponse)
      requires State(resp).Valid(|buffer|) && State(resp).InHead()
      modifies this
      ensures HeadStep(old(State(resp)), buffer, eof, max)
           == if more then Next(State(out)) else Halt(status, State(out))
    {
      hide StatusLineStep, HeaderStep, BlankLineStep, FindFrom, ChopCr;
      out := resp;
      var nl := FindFrom(buffer, '\n', pos);
      if nl == |buffer| {
        if |buffer| > max { return false, Error, out; }
        return false, if eof then Error else NeedMore, out;
      }
      var lineStart, line := pos, ChopCr(buffer[pos..nl]);
      pos := nl + 1;
      if pos > max { return false, Error, out; }
      if phase == StatusLine {
        more, out := ConsumeStatusLine(line, out);
        status := Error;
      } else if line == [] {
        status := ConsumeBlankLine(out);
        more := status != Complete;
      } else {
        more, out := ConsumeHeader(line, lineStart, out);
        status := Error;
      }
    }

    /** One call on the whole accumulated view; `out` is the updated response. */
    method Parse(buffer: string, eof: bool, resp: HttpResponse, max: nat)
      returns (status: Status, out: HttpResponse)
      requires State(resp).Valid(|buffer|)
      modifies this
      ensures ParseResult(status, State(out)) == ParseRun(old(State(resp)), buffer, eof, max, codec)
    {
      out := resp;
      while phase == StatusLine || phase == Headers
        invariant State(out).Valid(|buffer|)
        invariant ParseRun(State(out), buffer, eof, max, codec)
               == ParseRun(old(State(resp)), buffer, eof, max, codec)
        decreases |buffer| - pos
      {
        var more;
        more, status, out := ConsumeHeadLine(buffer, eof, max, out);
        if !more {
          if status == Complete {
            var r := InstallBody(State(out), buffer, codec);
            status, out := r.status, r.state.resp;
          }
          return;
        }
      }
      if phase == Done { return Complete, out; }
      ParseRunIsBodyRun(State(out), buffer, eof, max, codec);
      status := ParseBody(buffer, eof, max, out);
      if status == Complete {
        var r := InstallBody(State(out), buffer, codec);
        status, out := r.status, r.state.resp;
      }
    }
  }
}
