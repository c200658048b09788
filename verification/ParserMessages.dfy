/**
 End-to-end round trips: a whole message, printed from data in any of the four body
 framings, parses back to the response it describes and consumes exactly its bytes.
 The chunked printer of the parser's benchmark is one such printer.
 */
module ParserMessages {
  import opened Text
  import opened ResponseParsing
  import opened ParserHead
  import opened ParserChunked

  // ------------------------------------------------------------ messages as data

  datatype BodyText = Nothing | Sized(bytes: string) | Chunks(message: ChunkedMessage) | ToTheEnd(bytes: string)

  function RenderBody(b: BodyText): string {
    match b
    case Nothing => ""
    case Sized(bytes) => bytes
    case Chunks(m) => Render(m)
    case ToTheEnd(bytes) => bytes
  }

  function BodyBytes(b: BodyText): string {
    match b
    case Nothing => ""
    case Sized(bytes) => bytes
    case Chunks(m) => Data(m.chunks)
    case ToTheEnd(bytes) => bytes
  }

  /** The body is the kind the head announces, and of the length it announces. */
  ghost predicate Fits(headRequest: bool, h: Head, b: BodyText)
    requires WellFormedStatus(h.status)
  {
    match FramingSaid(headRequest, CodeOf(h.status), h.fields)
    case NoBody => b.Nothing?
    case Length =>
      && b.Sized? && LastValue(h.fields, ContentLength).Some?
      && FromChars(LastValue(h.fields, ContentLength).value, 10, SIZE_MAX) == Some(|b.bytes|)
    case Chunked => b.Chunks? && WellFormed(b.message)
    case UntilClose => b.ToTheEnd?
  }

  /** The response a message describes. */
  ghost function ResponseSaid(h: Head, body: string): HttpResponse
    requires WellFormedStatus(h.status)
  {
    HttpResponse(CodeOf(h.status),
                 if h.status.reason.Some? then TrimOws(h.status.reason.value) else "",
                 StoredFields(h.fields),
                 if body == "" then None else Some(Payload(body, ContentTypeSaid(h.fields))))
  }

  // ------------------------------------------------------- one framing at a time

  /** A sized body of `n` bytes completes as soon as they are all there. */
  lemma LengthBody(t: ParserState, buffer: string, eof: bool, max: nat, n: nat)
    requires t.Valid(|buffer|) && t.phase == BodyLength && t.body.start == t.pos && t.body.remaining == n
    ensures var r := BodyRun(t, buffer, eof, max);
            && (r.status == Complete <==> t.pos + n <= |buffer| && n <= max)
            && (r.status == Complete ==>
                  r.state == t.(pos := t.pos + n, phase := Done, body := t.body.(remaining := 0)))
  {
  }

  /** A body ended by close completes exactly at the close, with everything received. */
  lemma UntilCloseBody(t: ParserState, buffer: string, eof: bool, max: nat)
    requires t.Valid(|buffer|) && t.phase == BodyUntilClose
    ensures var r := BodyRun(t, buffer, eof, max);
            && (r.status == Complete <==> eof && |buffer| - t.body.start <= max)
            && (r.status == Complete ==> r.state == t.(pos := |buffer|, phase := Done))
  {
  }

  /** Whatever the framing, the body run ends just past the body with its bytes in hand. */
  lemma BodyParsed(t: ParserState, b: BodyText, buffer: string, eof: bool, max: nat, codec: Option<Codec>)
    returns (u: ParserState)
    requires t.Valid(|buffer|) && t.body.start == t.pos && t.body.buf == "" && !t.InHead() && t.phase != Done
    requires t.phase == PhaseFor(t.body.framing, t.body.remaining)
    requires match t.body.framing
             case NoBody => b.Nothing?
             case Length => b.Sized? && t.body.remaining == |b.bytes|
             case Chunked => b.Chunks? && WellFormed(b.message)
             case UntilClose => b.ToTheEnd? && eof && t.pos + |b.bytes| == |buffer|
    requires At(buffer, t.pos, RenderBody(b)) && |BodyBytes(b)| <= max
    ensures u.Valid(|buffer|) && u.phase == Done && u.pos == t.pos + |RenderBody(b)|
    ensures u.head == t.head && u.resp == t.resp
    ensures u.body.framing == t.body.framing && u.body.start == t.body.start && u.body.keepAlive == t.body.keepAlive
    ensures RawBody(u.body, buffer, u.pos) == BodyBytes(b)
    ensures ParseRun(t, buffer, eof, max, codec) == InstallBody(u, buffer, codec)
  {
    hide BodyRun, ParseRun, Render, Installed;
    ParseRunIsBodyRun(t, buffer, eof, max, codec);
    match t.body.framing {
      case Length => LengthBody(t, buffer, eof, max, |b.bytes|);
      case UntilClose => UntilCloseBody(t, buffer, eof, max);
      case Chunked =>
        ChunkedComplete(t, buffer, eof, max, b.message);
        assert "" + Data(b.message.chunks) == Data(b.message.chunks);
    }
    u := BodyRun(t, buffer, eof, max).state;
  }

  /** Installing without a codec puts the body and the content type of the head into the response. */
  lemma InstalledPlain(u: ParserState, h: Head, body: string, buffer: string)
    requires u.Valid(|buffer|) && !u.InHead() && WellFormedStatus(h.status)
    requires u.resp == ResponseSaid(h, "") && ContentTypeOf(u.head, buffer) == ContentTypeSaid(h.fields)
    requires if u.body.framing == NoBody then body == "" else RawBody(u.body, buffer, u.pos) == body
    ensures InstallBody(u, buffer, None) == ParseResult(Complete, u.(resp := ResponseSaid(h, body)))
  {
    hide FromChars, TrimOws, StoredFields, ContentTypeSaid, HeaderValueOrEmpty, ContentTypeOf, RawBody;
  }

  /**
   Round trip.  The rendering of a well-formed message that fits the budget parses to
   exactly the response it describes; whatever follows is left unread.
   */
  lemma MessageRoundTrip(headRequest: bool, h: Head, b: BodyText, rest: string, eof: bool, max: nat)
    requires WellFormedHead(h) && CodeOf(h.status) >= 200 && Fits(headRequest, h, b)
    requires |RenderHead(h)| <= max && |BodyBytes(b)| <= max
    requires b.ToTheEnd? ==> eof && rest == ""
    ensures var buffer := RenderHead(h) + RenderBody(b) + rest;
            var r := ParseRun(Fresh(headRequest, EMPTY_RESPONSE), buffer, eof, max, None);
            && r.status == Complete
            && r.state.pos == |RenderHead(h)| + |RenderBody(b)|
            && r.state.resp == ResponseSaid(h, BodyBytes(b))
            && r.state.body.keepAlive == KeepAliveSaid(r.state.body.framing, h.status.version, h.fields)
            && r.state.body.framing == FramingSaid(headRequest, CodeOf(h.status), h.fields)
  {
    hide ParseRun, RenderHead, Render, InstallBody, At, WellFormedHead, WellFormedStatus, Framed, Fits, FramingSaid,
         KeepAliveSaid, ResponseSaid, BodyBytes, CodeOf;
    var s := Fresh(headRequest, EMPTY_RESPONSE);
    var text, body := RenderHead(h), RenderBody(b);
    var buffer := text + body + rest;
    MessageParts(text, body, rest);
    var t := HeadMeaning(s, h, buffer, eof, max, None);
    HeadStatus(h);
    BodyBehindHead(s, h, t, b, buffer, eof, max);
  }

  lemma HeadStatus(h: Head)
    requires WellFormedHead(h)
    ensures WellFormedStatus(h.status)
  {
  }

  /** From the end of the head on. */
  lemma BodyBehindHead(s: ParserState, h: Head, t: ParserState, b: BodyText, buffer: string, eof: bool, max: nat)
    requires WellFormedStatus(h.status) && Framed(s, h, t, buffer) && s == Fresh(s.head.headRequest, EMPTY_RESPONSE)
    requires Fits(s.head.headRequest, h, b) && At(buffer, t.pos, RenderBody(b)) && |BodyBytes(b)| <= max
    requires b.ToTheEnd? ==> eof && t.pos + |b.bytes| == |buffer|
    ensures var r := if t.phase == Done then InstallBody(t, buffer, None) else ParseRun(t, buffer, eof, max, None);
            && r.status == Complete
            && r.state.pos == t.pos + |RenderBody(b)|
            && r.state.resp == ResponseSaid(h, BodyBytes(b))
            && r.state.body.keepAlive == KeepAliveSaid(r.state.body.framing, h.status.version, h.fields)
            && r.state.body.framing == FramingSaid(s.head.headRequest, CodeOf(h.status), h.fields)
  {
    hide ParseRun, InstallBody, At, FromChars, TrimOws, StoredFields, LastValue, ContentTypeSaid, ContentTypeOf,
         RawBody, KeepAliveSaid, SaysChunked, Render, Data;
    assert [] + StoredFields(h.fields) == StoredFields(h.fields);
    assert t.resp == ResponseSaid(h, "");
    if t.phase == Done {
      EmptySlice(buffer, t);
      assert RenderBody(b) == BodyBytes(b) == "";
      InstalledPlain(t, h, "", buffer);
    } else {
      var u := BodyParsed(t, b, buffer, eof, max, None);
      SameContentType(t, u, buffer);
      InstalledPlain(u, h, BodyBytes(b), buffer);
    }
  }

  lemma MessageParts(head: string, body: string, rest: string)
    ensures At(head + body + rest, 0, head) && At(head + body + rest, |head|, body)
    ensures rest == "" ==> |head + body + rest| == |head| + |body|
  {
    assert (head + body + rest)[|head|..|head| + |body|] == body;
  }

  lemma EmptySlice(buffer: string, t: ParserState)
    requires t.Valid(|buffer|) && t.body.start == t.pos && t.body.framing != Chunked && !t.InHead()
    ensures RawBody(t.body, buffer, t.pos) == ""
  {
  }

  lemma SameContentType(t: ParserState, u: ParserState, buffer: string)
    requires t.Valid(|buffer|) && u.Valid(|buffer|) && t.head == u.head
    ensures ContentTypeOf(u.head, buffer) == ContentTypeOf(t.head, buffer)
  {
  }

  // ---------------------------------------------------------- the chunked printer

  /** Section 7.1 of RFC 9112, as the benchmark prints it: hex size, CRLF, data, CRLF. */
  function PrintChunk(data: string): Chunk { Chunk(ToChars(|data|, 16) + "\r", data, "\r") }

  function PrintChunks(pieces: seq<string>): seq<Chunk> {
    if pieces == [] then [] else [PrintChunk(pieces[0])] + PrintChunks(pieces[1..])
  }

  function Printed(pieces: seq<string>): ChunkedMessage { ChunkedMessage(PrintChunks(pieces), "0\r", [], "\r") }

  function Join(pieces: seq<string>): string {
    if pieces == [] then "" else pieces[0] + Join(pieces[1..])
  }

  /** Text of digits holds no separator, newline or whitespace. */
  lemma DigitsAreClean(text: string)
    requires AllDigits(text, 16)
    ensures IsLine(text) && ';' !in text && Trimmed(text)
  {
  }

  /** The printed size line announces the size. */
  lemma SizeLineRoundTrip(n: nat)
    requires n <= SIZE_MAX
    ensures IsLine(ToChars(n, 16) + "\r") && ChunkSizeOf(ToChars(n, 16) + "\r") == Some(n)
  {
    var text := ToChars(n, 16);
    ToCharsRoundTrip(n, 16);
    DigitsAreClean(text);
    assert ChopCr(text + "\r") == text by { assert (text + "\r")[..|text|] == text; }
    FindAbsent(text, ';');
    assert text[..|text|] == text;
    TrimOwsIdentity(text);
    ToCharsFromChars(n, 16, SIZE_MAX);
  }

  lemma {:induction false} PrintedWellFormed(pieces: seq<string>)
    requires forall i :: 0 <= i < |pieces| ==> 0 < |pieces[i]| <= SIZE_MAX
    ensures |PrintChunks(pieces)| == |pieces| && WellFormed(Printed(pieces))
    ensures Data(PrintChunks(pieces)) == Join(pieces)
  {
    hide ChunkSizeOf, ToChars;
    SizeLineRoundTrip(0);
    ZeroText();
    if pieces != [] {
      SizeLineRoundTrip(|pieces[0]|);
      PrintedWellFormed(pieces[1..]);
      var chunks := PrintChunks(pieces);
      assert chunks[1..] == PrintChunks(pieces[1..]);
      forall i | 0 <= i < |chunks| ensures WellFormedChunk(chunks[i]) {
        if i > 0 {
          assert chunks[i] == Printed(pieces[1..]).chunks[i - 1];
        }
      }
    }
  }

  lemma ZeroText()
    ensures ToChars(0, 16) + "\r" == "0\r"
  {
  }

  const TYPE_FIELD := FieldLine("Content-Type", " text/plain", true)
  const CODING_FIELD := FieldLine("Transfer-Encoding", " chunked", true)

  const CHUNKED_HEAD := Head(
    StatusText("HTTP/1.1", "200", Some("OK")), true, [TYPE_FIELD, CODING_FIELD], "\r")

  lemma KindsOfHead()
    ensures KindOf("Content-Type") == ContentType
    ensures KindOf("Transfer-Encoding") == TransferEncoding
  {
    hide Lower;
    LowerIs("Content-Type", CONTENT_TYPE);
    LowerIs("Transfer-Encoding", TRANSFER_ENCODING);
  }

  lemma TypeValue()
    ensures TrimOws(" text/plain") == "text/plain"
  {
    hide TrimOws;
    TrimOwsAround(" ", "text/plain", "");
    assert " " + "text/plain" + "" == " text/plain";
  }

  lemma EncodingValue()
    ensures TrimOws(" chunked") == "chunked" && LastTransferEncodingIsChunked("chunked")
  {
    hide TrimOws, AfterLast, Lower;
    TrimOwsAround(" ", "chunked", "");
    assert " " + "chunked" + "" == " chunked";
    assert AfterLast("chunked", ',') == 0;
    assert "chunked"[0..] == "chunked";
    TrimOwsIdentity("chunked");
    LowerIs("chunked", "chunked");
  }

  lemma StatusOfHead()
    ensures FromChars("200", 10, UINT16_MAX) == Some(200) && TrimOws("OK") == "OK"
  {
    hide TrimOws;
    assert "200"[..2] == "20" && "20"[..1] == "2" && "2"[..0] == "";
    TrimOwsIdentity("OK");
  }

  /** A content type and a chunked coding: what any head with these two fields says. */
  lemma TwoFieldsSay(f: FieldLine, g: FieldLine)
    requires KindOf(f.name) == ContentType && KindOf(g.name) == TransferEncoding
    requires TrimOws(f.raw) != "" && LastTransferEncodingIsChunked(TrimOws(g.raw))
    ensures FramingSaid(false, 200, [f, g]) == Chunked
    ensures ContentTypeSaid([f, g]) == TrimOws(f.raw) && StoredFields([f, g]) == []
    ensures KeepAliveSaid(Chunked, "HTTP/1.1", [f, g])
  {
    hide KindOf, TrimOws, LastTransferEncodingIsChunked, HasToken;
    assert [f, g][..1] == [f] && [f][..0] == [];
    assert LastValue([f], ContentType) == Some(TrimOws(f.raw));
    assert StoredFields([f]) == [];
    assert !ConnectionSays([f, g], "close");
  }

  /** A field that is well formed unless it is a length. */
  ghost predicate PlainField(f: FieldLine) {
    f.name != [] && ':' !in f.name && IsLine(f.name) && IsLine(f.raw) && f.cr
  }

  lemma TypeFieldPlain()
    ensures PlainField(TYPE_FIELD)
  {
  }

  lemma CodingFieldPlain()
    ensures PlainField(CODING_FIELD)
  {
  }

  lemma TwoFieldsWellFormed(f: FieldLine, g: FieldLine)
    requires KindOf(f.name) == ContentType && KindOf(g.name) == TransferEncoding
    requires PlainField(f) && PlainField(g)
    ensures forall i :: 0 <= i < 2 ==> WellFormedField([f, g][i])
  {
    hide KindOf, TrimOws, FromChars;
  }

  /** The benchmark's fixed head: its fields, and its status line. */
  lemma ChunkedHeadSays(h: Head)
    requires h == CHUNKED_HEAD
    ensures |h.fields| == 2 && (forall i :: 0 <= i < 2 ==> WellFormedField(h.fields[i]))
    ensures FramingSaid(false, 200, h.fields) == Chunked && KeepAliveSaid(Chunked, "HTTP/1.1", h.fields)
    ensures StoredFields(h.fields) == [] && ContentTypeSaid(h.fields) == "text/plain"
  {
    hide KindOf, TrimOws, FromChars, FramingSaid, KeepAliveSaid, StoredFields, ContentTypeSaid, WellFormedField,
         LastTransferEncodingIsChunked;
    FieldsOfHead(TYPE_FIELD, CODING_FIELD);
    TwoFieldsSay(TYPE_FIELD, CODING_FIELD);
    TwoFieldsWellFormed(TYPE_FIELD, CODING_FIELD);
  }

  /** What the two fields of the head are, one by one. */
  lemma FieldsOfHead(f: FieldLine, g: FieldLine)
    requires f == TYPE_FIELD && g == CODING_FIELD
    ensures KindOf(f.name) == ContentType && KindOf(g.name) == TransferEncoding
    ensures TrimOws(f.raw) == "text/plain" && LastTransferEncodingIsChunked(TrimOws(g.raw))
    ensures PlainField(f) && PlainField(g)
  {
    hide KindOf, TrimOws, LastTransferEncodingIsChunked, PlainField;
    TypeFieldPlain();
    CodingFieldPlain();
    KindsOfHead();
    TypeValue();
    EncodingValue();
  }

  lemma ChunkedHeadReads(h: Head)
    requires h == CHUNKED_HEAD
    ensures WellFormedHead(h) && CodeOf(h.status) == 200 && h.status.version == "HTTP/1.1"
    ensures FramingSaid(false, 200, h.fields) == Chunked && KeepAliveSaid(Chunked, h.status.version, h.fields)
    ensures ResponseSaid(h, "") == HttpResponse(200, "OK", [], None)
    ensures ContentTypeSaid(h.fields) == "text/plain"
  {
    hide TrimOws, FromChars, FramingSaid, KeepAliveSaid, StoredFields, ContentTypeSaid, WellFormedField;
    ChunkedHeadSays(h);
    StatusOfHead();
  }

  /**
   Chunked round trip: every body, cut into non-empty chunks in any way, parses back
   to exactly that body, and the bytes after the message are not consumed.
   */
  lemma ChunkedRoundTrip(pieces: seq<string>, rest: string, eof: bool, max: nat)
    requires forall i :: 0 <= i < |pieces| ==> 0 < |pieces[i]| <= SIZE_MAX
    requires |RenderHead(CHUNKED_HEAD)| <= max && |Join(pieces)| <= max
    ensures var message := RenderHead(CHUNKED_HEAD) + Render(Printed(pieces));
            var r := ParseRun(Fresh(false, EMPTY_RESPONSE), message + rest, eof, max, None);
            && r.status == Complete
            && r.state.pos == |message|
            && r.state.body.keepAlive
            && r.state.resp == HttpResponse(200, "OK", [],
                 if Join(pieces) == "" then None else Some(Payload(Join(pieces), "text/plain")))
  {
    hide ParseRun, RenderHead, Render, PrintChunks, WellFormedHead, FramingSaid, StoredFields, ContentTypeSaid,
         KeepAliveSaid, Join, Data, WellFormed, FromChars, TrimOws;
    PrintedWellFormed(pieces);
    ChunkedHeadReads(CHUNKED_HEAD);
    MessageRoundTrip(false, CHUNKED_HEAD, Chunks(Printed(pieces)), rest, eof, max);
  }

  function Xs(n: nat): (r: string)
    ensures |r| == n
  {
    seq(n, _ => 'x')
  }

  /** `n` copies of 'x' cut into chunks of `size`. */
  function Pieces(n: nat, size: nat): (r: seq<string>)
    requires size > 0
    ensures forall i :: 0 <= i < |r| ==> 0 < |r[i]| <= size
  {
    if n == 0 then []
    else
      var take := if size < n then size else n;
      [Xs(take)] + Pieces(n - take, size)
  }

  lemma {:induction false} PiecesJoin(n: nat, size: nat)
    requires size > 0
    ensures Join(Pieces(n, size)) == Xs(n)
  {
    if n > 0 {
      var take := if size < n then size else n;
      PiecesJoin(n - take, size);
      assert Pieces(n, size)[1..] == Pieces(n - take, size);
    }
  }

  lemma RenderChunkText(size: string, data: string)
    ensures RenderChunk(Chunk(size + "\r", data, "\r")) == size + "\r\n" + data + "\r\n"
  {
    assert size + "\r" + "\n" == size + "\r\n";
  }

  /** Printing one chunk ahead of the rest. */
  lemma RenderPrintedCons(data: string, pieces: seq<string>)
    ensures Render(Printed([data] + pieces))
         == ToChars(|data|, 16) + "\r\n" + data + "\r\n" + Render(Printed(pieces))
  {
    hide ToChars, RenderChunk, RenderLines;
    assert ([data] + pieces)[1..] == pieces;
    var chunks := PrintChunks([data] + pieces);
    assert chunks[0] == PrintChunk(data) && chunks[1..] == PrintChunks(pieces);
    RenderChunkText(ToChars(|data|, 16), data);
  }

  /** What is printed so far and one chunk more. */
  lemma PrintedOneMore(raw: string, data: string, pieces: seq<string>)
    ensures raw + Render(Printed([data] + pieces))
         == raw + ToChars(|data|, 16) + "\r\n" + data + "\r\n" + Render(Printed(pieces))
  {
    hide Render, Printed, ToChars;
    RenderPrintedCons(data, pieces);
    FiveParts(raw, ToChars(|data|, 16), "\r\n", data, Render(Printed(pieces)));
  }

  lemma FiveParts(a: string, b: string, c: string, d: string, e: string)
    ensures a + (b + c + d + c + e) == a + b + c + d + c + e
  {
  }

  lemma RenderPrintedNil()
    ensures Render(Printed([])) == "0\r\n\r\n"
  {
  }

  const CHUNKED_HEAD_TEXT :=
    "HTTP/1.1 200 OK\r\n" + ("Content-Type: text/plain\r\n" + ("Transfer-Encoding: chunked\r\n" + "\r\n"))

  lemma StatusLine200()
    ensures WithCr(StatusLineText(CHUNKED_HEAD.status), true) + "\n" == "HTTP/1.1 200 OK\r\n"
  {
  }

  lemma FieldLineText(f: FieldLine)
    requires f.cr
    ensures LineOf(f) + "\n" == f.name + ":" + f.raw + "\r\n"
  {
  }

  lemma FieldTexts()
    ensures LineOf(TYPE_FIELD) + "\n" == "Content-Type: text/plain\r\n"
    ensures LineOf(CODING_FIELD) + "\n" == "Transfer-Encoding: chunked\r\n"
  {
    hide LineOf;
    FieldLineText(TYPE_FIELD);
    FieldLineText(CODING_FIELD);
    assert "Content-Type" + ":" + " text/plain" + "\r\n" == "Content-Type: text/plain\r\n";
    assert "Transfer-Encoding" + ":" + " chunked" + "\r\n" == "Transfer-Encoding: chunked\r\n";
  }

  lemma ChunkedHeadText()
    ensures RenderHead(CHUNKED_HEAD) == CHUNKED_HEAD_TEXT
  {
    hide LineOf, WithCr, StatusLineText, RenderLines;
    var h := CHUNKED_HEAD;
    StatusLine200();
    FieldTexts();
    var l0, l1 := LineOf(TYPE_FIELD), LineOf(CODING_FIELD);
    assert LinesOf(h.fields) == [l0, l1];
    TwoLines(l0, l1, "\r");
  }

  lemma TwoLines(a: string, b: string, last: string)
    ensures RenderLines([a, b], last) == a + "\n" + (b + "\n" + (last + "\n"))
  {
    assert [a, b][1..] == [b] && [b][1..] == [];
    assert RenderLines([b], last) == b + "\n" + RenderLines([], last);
  }

  /** The text of the benchmark's response. */
  function PrintedResponse(bodyBytes: nat, chunkBytes: nat): string
    requires bodyBytes > 0 ==> chunkBytes > 0
  {
    RenderHead(CHUNKED_HEAD) + Render(Printed(if bodyBytes == 0 then [] else Pieces(bodyBytes, chunkBytes)))
  }

  /**
   Parsing what the printer emits, for every body and chunk size: exactly `bodyBytes` times 'x',
   the whole text consumed and nothing after it.
   */
  lemma PrinterRoundTrip(bodyBytes: nat, chunkBytes: nat, rest: string, eof: bool, max: nat)
    requires (bodyBytes > 0 ==> chunkBytes > 0) && bodyBytes <= SIZE_MAX
    requires |RenderHead(CHUNKED_HEAD)| <= max && bodyBytes <= max
    ensures var text := PrintedResponse(bodyBytes, chunkBytes);
            var r := ParseRun(Fresh(false, EMPTY_RESPONSE), text + rest, eof, max, None);
            && r.status == Complete && r.state.pos == |text|
            && r.state.resp == HttpResponse(200, "OK", [],
                 if bodyBytes == 0 then None else Some(Payload(Xs(bodyBytes), "text/plain")))
  {
    hide ParseRun, RenderHead, Render, Printed;
    if bodyBytes == 0 {
      ChunkedRoundTrip([], rest, eof, max);
    } else {
      PiecesJoin(bodyBytes, chunkBytes);
      PiecesShort(bodyBytes, chunkBytes);
      ChunkedRoundTrip(Pieces(bodyBytes, chunkBytes), rest, eof, max);
    }
  }

  lemma {:induction false} PiecesShort(n: nat, size: nat)
    requires size > 0
    ensures forall i :: 0 <= i < |Pieces(n, size)| ==> 0 < |Pieces(n, size)[i]| <= n
  {
    if n > 0 { PiecesShort(n - (if size < n then size else n), size); }
  }

  /** The benchmark's printer: a chunked response whose body is `bodyBytes` times 'x'. */
  method MakeChunkedResponse(bodyBytes: nat, chunkBytes: nat) returns (raw: string)
    requires bodyBytes > 0 ==> chunkBytes > 0
    ensures raw == PrintedResponse(bodyBytes, chunkBytes)
  {
    hide RenderHead, Render, Printed, ToChars, Xs;
    raw := CHUNKED_HEAD_TEXT;
    ChunkedHeadText();
    ghost var rest := if bodyBytes == 0 then [] else Pieces(bodyBytes, chunkBytes);
    ghost var whole := rest;
    var emitted := 0;
    while emitted < bodyBytes
      invariant emitted <= bodyBytes
      invariant emitted < bodyBytes ==> rest == Pieces(bodyBytes - emitted, chunkBytes)
      invariant emitted == bodyBytes ==> rest == []
      invariant raw + Render(Printed(rest)) == RenderHead(CHUNKED_HEAD) + Render(Printed(whole))
    {
      var take := if chunkBytes < bodyBytes - emitted then chunkBytes else bodyBytes - emitted;
      ghost var more := Pieces(bodyBytes - emitted - take, chunkBytes);
      PrintedOneMore(raw, Xs(take), more);
      raw := raw + ToChars(take, 16);
      raw := raw + "\r\n";
      raw := raw + Xs(take);
      raw := raw + "\r\n";
      emitted := emitted + take;
      rest := more;
    }
    RenderPrintedNil();
    raw := raw + "0\r\n\r\n";
  }
}
