/**
 The converse of the round trip: whatever the bytes, a parse that completes has read
 interim heads and one message, and its response is what those say.
 */
module ParserConverse {
  import opened Text
  import opened ResponseParsing
  import opened ParserHead
  import opened ParserChunked
  import opened ParserInterim
  import opened ParserMessages
  import opened ParserBudget
  import opened ParserSound

  /** The response that a final head behind interim ones, and a body, describe. */
  ghost function ResponseBehind(heads: seq<Head>, body: string): HttpResponse
    requires heads != [] && WellFormedStatus(heads[|heads| - 1].status)
  {
    var final := heads[|heads| - 1];
    HttpResponse(CodeOf(final.status), LeftoverReason(heads, ""), LeftoverFields(heads),
                 if body == "" then None else Some(Payload(body, ContentTypeSaid(final.fields))))
  }

  /** What the framing of a parsed head demands of the body text. */
  ghost predicate BodyFits(u: ParserState, b: BodyText, buffer: string, eof: bool) {
    match u.body.framing
    case NoBody => b.Nothing?
    case Length => b.Sized? && u.body.remaining == |b.bytes|
    case Chunked => b.Chunks? && WellFormed(b.message)
    case UntilClose => b.ToTheEnd? && eof && u.pos + |b.bytes| == |buffer|
  }

  /** A completed body is the text of a body that fits, within the budget. */
  lemma BodyIsText(u: ParserState, buffer: string, eof: bool, max: nat, codec: Option<Codec>) returns (b: BodyText)
    requires u.Valid(|buffer|) && !u.InHead() && u.phase != Done
    requires u.phase == PhaseFor(u.body.framing, u.body.remaining)
    requires u.body.start == u.pos <= max && u.body.buf == ""
    requires ParseRun(u, buffer, eof, max, codec).status == Complete
    ensures BodyFits(u, b, buffer, eof) && At(buffer, u.pos, RenderBody(b)) && |BodyBytes(b)| <= max
  {
    hide BodyRun, ParseRun, Render, Installed, WellFormed, Data;
    ParseRunIsBodyRun(u, buffer, eof, max, codec);
    if u.body.framing == Length {
      LengthBody(u, buffer, eof, max, u.body.remaining);
      b := Sized(buffer[u.pos..u.pos + u.body.remaining]);
    } else if u.body.framing == UntilClose {
      UntilCloseBody(u, buffer, eof, max);
      b := ToTheEnd(buffer[u.pos..]);
      assert buffer[u.pos..] == buffer[u.pos..|buffer|];
    } else {
      var m := ChunkedSound(u, buffer, eof, max);
      b := Chunks(m);
      ChunksWithinBudget(u, buffer, eof, max);
      assert "" + Data(m.chunks) == Data(m.chunks);
    }
  }

  /** Reassembled chunks stay within the budget. */
  lemma {:induction false} ChunksWithinBudget(u: ParserState, buffer: string, eof: bool, max: nat)
    requires u.Valid(|buffer|) && u.InChunks() && WithinBudget(u, max)
    ensures var r := BodyRun(u, buffer, eof, max);
            r.status == Complete ==> |r.state.body.buf| <= max
    decreases |buffer| - u.pos
  {
    hide BodyStep;
    BodyStepWithinBudget(u, buffer, eof, max);
    BodyStepKeeps(u, buffer, eof, max);
    var r := BodyStep(u, buffer, eof, max);
    if r.Next? { ChunksWithinBudget(r.s, buffer, eof, max); }
  }

  /** What is known once a sequence of heads has been read from a fresh parser. */
  ghost predicate HeadsRead(t: ParserState, headRequest: bool, heads: seq<Head>, buffer: string) {
    heads != [] &&
    var final := heads[|heads| - 1];
    && WellFormedStatus(final.status)
    && t.Valid(|buffer|) && !t.InHead() && t.pos == t.body.start == |RenderHeads(heads)| && t.body.buf == ""
    && t.phase == PhaseFor(t.body.framing, t.body.remaining)
    && t.body.framing == FramingSaid(headRequest, CodeOf(final.status), final.fields)
    && t.body.keepAlive == KeepAliveSaid(t.body.framing, final.status.version, final.fields)
    && (t.body.framing == Length ==>
          LastValue(final.fields, ContentLength).Some? &&
          FromChars(LastValue(final.fields, ContentLength).value, 10, SIZE_MAX) == Some(t.body.remaining))
    && ContentTypeOf(t.head, buffer) == ContentTypeSaid(final.fields) && t.resp == ResponseBehind(heads, "")
  }

  /** Interim heads and a final one, at the start of any buffer, are read for what they say. */
  lemma ReadHeads(headRequest: bool, heads: seq<Head>, buffer: string, eof: bool, max: nat, codec: Option<Codec>)
    returns (t: ParserState)
    requires HeadSequence(heads) && At(buffer, 0, RenderHeads(heads)) && |RenderHeads(heads)| <= max
    ensures ComesTo(headRequest, t, buffer, eof, max, codec)
    ensures !t.InHead() && HeadsRead(t, headRequest, heads, buffer)
  {
    hide ComesTo, RenderHeads, RenderHead, At, TrimOws, StoredFields, FromChars, WellFormedHead,
         LeftoverReason, LeftoverFields, Skipped, Framed, HeadsRead, WellFormedStatus;
    FinalStatus(heads);
    var init, final := heads[..|heads| - 1], heads[|heads| - 1];
    assert heads == init + [final];
    RenderHeadsAppend(init, final);
    AtSplit(buffer, 0, RenderHeads(init), RenderHead(final));
    var u;
    u, t := ReadBehind(headRequest, init, final, buffer, eof, max, codec);
    ReadForWhatTheySay(headRequest, init, final, buffer, u, t);
  }

  lemma ReadForWhatTheySay(headRequest: bool, init: seq<Head>, final: Head, buffer: string, u: ParserState,
                           t: ParserState)
    requires WellFormedStatus(final.status) && Framed(u, final, t, buffer)
    requires Skipped(Fresh(headRequest, EMPTY_RESPONSE), u, LeftoverFields(init), LeftoverReason(init, ""))
    requires t.pos == |RenderHeads(init + [final])|
    ensures HeadsRead(t, headRequest, init + [final], buffer) && !t.InHead()
  {
    hide RenderHeads, TrimOws, StoredFields, FromChars, LeftoverReason, LeftoverFields, FramingSaid, KeepAliveSaid,
         LastValue, ContentTypeSaid, ContentTypeOf;
    LeftoverFieldsAppend(init, final);
    LeftoverReasonAppend(init, final, "");
    assert [] + LeftoverFields(init) == LeftoverFields(init);
  }

  // ------------------------------------------------------------- with or without a codec

  predicate Decodes(codec: Codec, encoding: string, body: string) {
    encoding == "" || codec(encoding, body).Some?
  }

  /** The encoding the body is decoded by: the first of all the heads, the interim ones included. */
  ghost function EncodingOf(heads: seq<Head>): string {
    HeaderValueOrEmpty(LeftoverFields(heads), CONTENT_ENCODING)
  }

  /** The body can be installed: there is none, nothing to decode it with or by, or it decodes. */
  ghost predicate Installable(heads: seq<Head>, b: BodyText, codec: Option<Codec>) {
    b.Nothing? || codec.None? || Decodes(codec.value, EncodingOf(heads), BodyBytes(b))
  }

  /**
   The response that heads and a body describe: with a codec and an encoding, the decoded body,
   and one Content-Encoding line less.
   */
  ghost function ResponseTo(heads: seq<Head>, b: BodyText, codec: Option<Codec>): HttpResponse
    requires heads != [] && WellFormedStatus(heads[|heads| - 1].status) && Installable(heads, b, codec)
  {
    if b.Nothing? || codec.None? || EncodingOf(heads) == "" then ResponseBehind(heads, BodyBytes(b))
    else ResponseBehind(heads, codec.value(EncodingOf(heads), BodyBytes(b)).value)
           .(headers := RemoveHeaderLine(LeftoverFields(heads), CONTENT_ENCODING))
  }

  /** Installing adds the body to what the heads said, or fails to decode it. */
  lemma InstalledBehind(u: ParserState, heads: seq<Head>, b: BodyText, buffer: string, codec: Option<Codec>)
    requires u.Valid(|buffer|) && !u.InHead() && heads != [] && WellFormedStatus(heads[|heads| - 1].status)
    requires u.resp == ResponseBehind(heads, "")
    requires ContentTypeOf(u.head, buffer) == ContentTypeSaid(heads[|heads| - 1].fields)
    requires u.body.framing == NoBody <==> b.Nothing?
    requires !b.Nothing? ==> RawBody(u.body, buffer, u.pos) == BodyBytes(b)
    ensures InstallBody(u, buffer, codec) ==
              (if Installable(heads, b, codec) then ParseResult(Complete, u.(resp := ResponseTo(heads, b, codec)))
               else ParseResult(Error, u))
  {
    hide FromChars, TrimOws, ContentTypeSaid, HeaderValueOrEmpty, ContentTypeOf, RawBody, LeftoverFields,
         LeftoverReason, RemoveHeaderLine, Data;
  }

  /** Heads and a body that fits the last of them, within the budget. */
  ghost predicate Readable(headRequest: bool, heads: seq<Head>, b: BodyText, rest: string, eof: bool, max: nat) {
    && HeadSequence(heads) && WellFormedStatus(heads[|heads| - 1].status) && Fits(headRequest, heads[|heads| - 1], b)
    && |RenderHeads(heads)| <= max && |BodyBytes(b)| <= max && (b.ToTheEnd? ==> eof && rest == "")
  }

  /** A result that says what a message says, and consumed exactly it. */
  ghost predicate SaysMessage(r: ParserState, headRequest: bool, heads: seq<Head>, b: BodyText, codec: Option<Codec>) {
    heads != [] &&
    var final := heads[|heads| - 1];
    && WellFormedStatus(final.status) && Installable(heads, b, codec)
    && r.pos == |RenderHeads(heads)| + |RenderBody(b)| && r.resp == ResponseTo(heads, b, codec)
    && r.body.framing == FramingSaid(headRequest, CodeOf(final.status), final.fields)
    && r.body.keepAlive == KeepAliveSaid(r.body.framing, final.status.version, final.fields)
  }

  function ParseWith(headRequest: bool, buffer: string, eof: bool, max: nat, codec: Option<Codec>): ParseResult {
    ParseRun(Fresh(headRequest, EMPTY_RESPONSE), buffer, eof, max, codec)
  }

  /** From the heads on: a body at the cursor ends the parse with what it says, if it can be installed. */
  lemma BodyEnds(t: ParserState, headRequest: bool, heads: seq<Head>, b: BodyText, buffer: string, eof: bool, max: nat,
                 codec: Option<Codec>)
    requires t.Valid(|buffer|) && !t.InHead() && HeadsRead(t, headRequest, heads, buffer)
    requires BodyFits(t, b, buffer, eof) && At(buffer, t.pos, RenderBody(b)) && |BodyBytes(b)| <= max
    ensures var r := if t.phase == Done then InstallBody(t, buffer, codec) else ParseRun(t, buffer, eof, max, codec);
            if Installable(heads, b, codec)
            then r.status == Complete && SaysMessage(r.state, headRequest, heads, b, codec)
            else r.status == Error
  {
    hide ParseRun, RenderHeads, InstallBody, At, FromChars, ContentTypeOf, RawBody, ResponseBehind, FramingSaid,
         KeepAliveSaid, LastValue, ContentTypeSaid, Render, Data, WellFormed, ResponseTo, Installable;
    if t.phase == Done {
      EmptySlice(buffer, t);
      InstalledBehind(t, heads, b, buffer, codec);
    } else {
      var u := BodyParsed(t, b, buffer, eof, max, codec);
      SameContentType(t, u, buffer);
      InstalledBehind(u, heads, b, buffer, codec);
    }
  }

  /**
   Round trip in full: interim heads, a final head and a body that fits, with a codec or without,
   parse to exactly the response they describe if the body can be decoded, and fail if not;
   whatever follows is left unread.
   */
  lemma MessageBehindHeads(headRequest: bool, heads: seq<Head>, b: BodyText, rest: string, eof: bool, max: nat,
                           codec: Option<Codec>)
    requires Readable(headRequest, heads, b, rest, eof, max)
    ensures var r := ParseWith(headRequest, RenderHeads(heads) + RenderBody(b) + rest, eof, max, codec);
            if Installable(heads, b, codec)
            then r.status == Complete && SaysMessage(r.state, headRequest, heads, b, codec)
            else r.status == Error
  {
    hide ParseRun, RenderHeads, InstallBody, At, FromChars, WellFormedHead, SaysMessage, Installable, FramingSaid,
         KeepAliveSaid, LastValue, Render, Data, WellFormed, ResponseBehind, ContentTypeOf, ContentTypeSaid;
    var buffer := RenderHeads(heads) + RenderBody(b) + rest;
    MessageParts(RenderHeads(heads), RenderBody(b), rest);
    var t := ReadHeads(headRequest, heads, buffer, eof, max, codec);
    BodyEnds(t, headRequest, heads, b, buffer, eof, max, codec);
  }

  /**
   Every completed parse, whatever the bytes and with a codec or without: they begin with interim
   heads, a final head and a body that fits it; exactly those are consumed, and status, reason,
   fields, body and the keep-alive decision are what they say.
   */
  lemma CompletedIsMessage(headRequest: bool, buffer: string, eof: bool, max: nat, codec: Option<Codec>)
    returns (heads: seq<Head>, b: BodyText)
    requires ParseWith(headRequest, buffer, eof, max, codec).status == Complete
    ensures HeadSequence(heads) && Fits(headRequest, heads[|heads| - 1], b)
    ensures At(buffer, 0, RenderHeads(heads) + RenderBody(b)) && |BodyBytes(b)| <= max
    ensures b.ToTheEnd? ==> eof && |buffer| == |RenderHeads(heads)| + |RenderBody(b)|
    ensures SaysMessage(ParseWith(headRequest, buffer, eof, max, codec).state, headRequest, heads, b, codec)
  {
    hide ParseRun, RenderHeads, InstallBody, At, FromChars, WellFormedHead, SaysMessage, Installable, FramingSaid,
         KeepAliveSaid, LastValue, Render, Data, WellFormed, ResponseBehind, ContentTypeOf, ContentTypeSaid,
         InterimHead;
    var s := Fresh(headRequest, EMPTY_RESPONSE);
    heads := OnlyWellFormedHeads(s, buffer, eof, max, codec);
    FinalStatus(heads);
    var t := ReadHeads(headRequest, heads, buffer, eof, max, codec);
    if t.phase == Done {
      b := if t.body.framing == NoBody then Nothing else Sized("");
      NothingAt(buffer, t.pos);
    } else {
      b := BodyIsText(t, buffer, eof, max, codec);
    }
    AtSplit(buffer, 0, RenderHeads(heads), RenderBody(b));
    BodyEnds(t, headRequest, heads, b, buffer, eof, max, codec);
  }

  lemma NothingAt(buffer: string, at: nat)
    requires at <= |buffer|
    ensures At(buffer, at, "")
  {
  }

  lemma FinalStatus(heads: seq<Head>)
    requires HeadSequence(heads)
    ensures WellFormedStatus(heads[|heads| - 1].status)
  {
  }

  // ------------------------------------------------------- encodings left behind

  lemma {:induction false} FirstEncoding(a: seq<Header>, b: seq<Header>)
    requires HeaderValueOrEmpty(a, CONTENT_ENCODING) != ""
    ensures HeaderValueOrEmpty(a + b, CONTENT_ENCODING) == HeaderValueOrEmpty(a, CONTENT_ENCODING)
    decreases |a|
  {
    hide EqualIgnoreCase;
    assert (a + b)[0] == a[0] && (a + b)[1..] == a[1..] + b;
    if !EqualIgnoreCase(a[0].name, CONTENT_ENCODING) { FirstEncoding(a[1..], b); }
  }

  /**
   Where interim heads are not invisible: an encoding they leave behind, which the codec refuses
   for the body, fails a message that alone completes.
   */
  lemma EncodingLeftBehind(headRequest: bool, interims: seq<Head>, h: Head, b: BodyText, rest: string, eof: bool,
                           max: nat, codec: Codec)
    requires Readable(headRequest, [h], b, rest, eof, max) && Readable(headRequest, interims + [h], b, rest, eof, max)
    requires !b.Nothing? && HeaderValueOrEmpty(StoredFields(h.fields), CONTENT_ENCODING) == ""
    requires EncodingOf(interims) != "" && codec(EncodingOf(interims), BodyBytes(b)).None?
    ensures ParseWith(headRequest, RenderHeads([h]) + RenderBody(b) + rest, eof, max, Some(codec)).status == Complete
    ensures ParseWith(headRequest, RenderHeads(interims + [h]) + RenderBody(b) + rest, eof, max, Some(codec)).status
            == Error
  {
    hide Readable, ParseWith, RenderHeads, HeaderValueOrEmpty, StoredFields, BodyBytes, RenderBody, SaysMessage;
    LeftoverFieldsAppend(interims, h);
    LeftoverFieldsAppend([], h);
    assert [] + [h] == [h] && [] + StoredFields(h.fields) == StoredFields(h.fields);
    FirstEncoding(LeftoverFields(interims), StoredFields(h.fields));
    MessageBehindHeads(headRequest, [h], b, rest, eof, max, Some(codec));
    MessageBehindHeads(headRequest, interims + [h], b, rest, eof, max, Some(codec));
  }
}
