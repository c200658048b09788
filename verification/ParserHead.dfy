/**
 What the parser makes of a response head, against a declarative reading of it.

 A head is given as data -- a status line, fields, a blank line -- and rendered.
 Parsing the rendering yields the framing of section 6.3 of RFC 9112, the keep-alive
 decision of section 9.3, and the stored fields, each defined here on the list of
 fields as a whole rather than one line at a time.
 */
module ParserHead {
  import opened Text
  import opened ResponseParsing

  // ------------------------------------------------------------ heads as data

  datatype StatusText = StatusText(version: string, code: string, reason: Option<string>)

  /** A field line before its terminator, with or without a CR. */
  datatype FieldLine = FieldLine(name: string, raw: string, cr: bool)

  datatype Head = Head(status: StatusText, statusCr: bool, fields: seq<FieldLine>, blank: string)

  function StatusLineText(t: StatusText): string {
    t.version + " " + t.code + (if t.reason.Some? then " " + t.reason.value else "")
  }

  function WithCr(text: string, cr: bool): string { if cr then text + "\r" else text }

  function LineOf(f: FieldLine): string { WithCr(f.name + ":" + f.raw, f.cr) }

  function LinesOf(fields: seq<FieldLine>): seq<string> {
    seq(|fields|, i requires 0 <= i < |fields| => LineOf(fields[i]))
  }

  function RenderHead(h: Head): string {
    WithCr(StatusLineText(h.status), h.statusCr) + "\n" + RenderLines(LinesOf(h.fields), h.blank)
  }

  /** The terminator is unambiguous: a line without CR does not end in one. */
  ghost predicate CleanEnd(text: string, cr: bool) {
    IsLine(text) && (!cr && text != [] ==> text[|text| - 1] != '\r')
  }

  ghost predicate WellFormedStatus(t: StatusText) {
    && ValidVersion(t.version) && ' ' !in t.version && ' ' !in t.code
    && FromChars(t.code, 10, UINT16_MAX).Some?
    && 100 <= FromChars(t.code, 10, UINT16_MAX).value <= 599
  }

  function CodeOf(t: StatusText): nat
    requires FromChars(t.code, 10, UINT16_MAX).Some?
  {
    FromChars(t.code, 10, UINT16_MAX).value
  }

  /** A non-empty name up to the first colon; a length that is a number. */
  ghost predicate WellFormedField(f: FieldLine) {
    && f.name != [] && ':' !in f.name && CleanEnd(f.name + ":" + f.raw, f.cr)
    && (KindOf(f.name) == ContentLength ==> FromChars(TrimOws(f.raw), 10, SIZE_MAX).Some?)
  }

  ghost predicate WellFormedHead(h: Head) {
    && WellFormedStatus(h.status) && CleanEnd(StatusLineText(h.status), h.statusCr)
    && (forall i :: 0 <= i < |h.fields| ==> WellFormedField(h.fields[i]))
    && IsBlank(h.blank)
  }

  // ------------------------------------------------------- the reference reading

  /** The value of the last field of a kind: repeated fields override. */
  ghost function LastValue(fields: seq<FieldLine>, kind: HeaderKind): Option<string> {
    if fields == [] then None
    else
      var f := fields[|fields| - 1];
      if KindOf(f.name) == kind then Some(TrimOws(f.raw)) else LastValue(fields[..|fields| - 1], kind)
  }

  /** Some Connection field of the head carries the option. */
  ghost predicate ConnectionSays(fields: seq<FieldLine>, option: string) {
    exists i :: 0 <= i < |fields| && KindOf(fields[i].name) == Connection && HasToken(TrimOws(fields[i].raw), option)
  }

  ghost predicate SaysChunked(fields: seq<FieldLine>) {
    match LastValue(fields, TransferEncoding)
    case None => false
    case Some(v) => LastTransferEncodingIsChunked(v)
  }

  ghost function ContentTypeSaid(fields: seq<FieldLine>): string {
    match LastValue(fields, ContentType)
    case None => OCTET_STREAM
    case Some(v) => if v == [] then OCTET_STREAM else v
  }

  /** Fields kept in the response: all but the three the parser consumes. */
  ghost function StoredFields(fields: seq<FieldLine>): seq<Header> {
    if fields == [] then []
    else
      var f := fields[|fields| - 1];
      var rest := StoredFields(fields[..|fields| - 1]);
      if KindOf(f.name) == Connection || KindOf(f.name) == Other then rest + [Header(f.name, TrimOws(f.raw))] else rest
  }

  /** Message body length, in the order of section 6.3 of RFC 9112. */
  ghost function FramingSaid(headRequest: bool, code: nat, fields: seq<FieldLine>): Framing {
    if headRequest || code == 204 || code == 304 then NoBody
    else if SaysChunked(fields) then Chunked
    else if LastValue(fields, ContentLength).Some? then Length
    else UntilClose
  }

  /** Persistence: "close" wins, then "keep-alive", then the version; never for a body ended by close. */
  ghost predicate KeepAliveSaid(framing: Framing, version: string, fields: seq<FieldLine>)
    requires ValidVersion(version)
  {
    && framing != UntilClose
    && !ConnectionSays(fields, "close")
    && (ConnectionSays(fields, "keep-alive") || (version[5] == '1' && version[7] == '1'))
  }

  // ------------------------------------------------------------- field by field

  /** The flags of the head say what the fields say. */
  ghost predicate ReflectsFlags(s: ParserState, fields: seq<FieldLine>) {
    && s.head.closeSeen == ConnectionSays(fields, "close")
    && s.head.keepAliveSeen == ConnectionSays(fields, "keep-alive")
    && s.head.chunked == SaysChunked(fields)
    && s.head.hasContentLength == LastValue(fields, ContentLength).Some?
    && (s.head.hasContentLength ==>
          FromChars(LastValue(fields, ContentLength).value, 10, SIZE_MAX) == Some(s.body.remaining))
  }

  /** State `s`, reached from `s0` at the start of the fields, has read exactly `fields`. */
  ghost predicate Reflects(s: ParserState, s0: ParserState, fields: seq<FieldLine>, buffer: string) {
    && s.Valid(|buffer|) && s.phase == Headers && s0.phase == Headers && s0.pos <= s.pos
    && s.head.headRequest == s0.head.headRequest
    && s.head.statusCode == s0.head.statusCode && s.head.http11 == s0.head.http11
    && ReflectsFlags(s, fields)
    && s.body.(remaining := 0) == s0.body.(remaining := 0)
    && ContentTypeOf(s.head, buffer) == ContentTypeSaid(fields)
    && s.resp == s0.resp.(headers := s0.resp.headers + StoredFields(fields))
  }

  lemma ConnectionSaysAppend(fields: seq<FieldLine>, f: FieldLine, option: string)
    ensures ConnectionSays(fields + [f], option) <==>
            ConnectionSays(fields, option) || (KindOf(f.name) == Connection && HasToken(TrimOws(f.raw), option))
  {
    hide KindOf, HasToken, TrimOws;
    assert forall i :: 0 <= i < |fields| ==> (fields + [f])[i] == fields[i];
    assert (fields + [f])[|fields|] == f;
  }

  lemma LastValueAppend(fields: seq<FieldLine>, f: FieldLine, kind: HeaderKind)
    ensures LastValue(fields + [f], kind) ==
            if KindOf(f.name) == kind then Some(TrimOws(f.raw)) else LastValue(fields, kind)
    ensures StoredFields(fields + [f]) ==
            if KindOf(f.name) == Connection || KindOf(f.name) == Other
            then StoredFields(fields) + [Header(f.name, TrimOws(f.raw))] else StoredFields(fields)
  {
    hide KindOf, TrimOws;
    assert (fields + [f])[..|fields|] == fields;
  }

  /** The trimmed value sits in the buffer where the parser will look for it. */
  lemma RawValueSlice(buffer: string, off: nat, raw: string)
    requires At(buffer, off, raw)
    ensures var v, at := TrimOws(raw), off + OwsStart(raw);
            at + |v| <= |buffer| && buffer[at..at + |v|] == v
  {
    hide OwsStart, OwsEnd;
    var k := OwsStart(raw);
    SliceOfSlice(buffer, off, off + |raw|, k, OwsEnd(raw, k));
  }

  lemma FlagsRead(s: ParserState, fields: seq<FieldLine>, f: FieldLine, off: nat)
    requires ReflectsFlags(s, fields) && off + |f.raw| <= s.pos
    requires s.head.contentTypeOff + s.head.contentTypeLen <= s.pos
    requires KindOf(f.name) == ContentLength ==> FromChars(TrimOws(f.raw), 10, SIZE_MAX).Some?
    ensures var r := FieldStep(s, f.name, f.raw, off);
            r.Next? && ReflectsFlags(r.s, fields + [f])
  {
    hide KindOf, HasToken, FromChars, LastTransferEncodingIsChunked, LastValue, StoredFields, ConnectionSays;
    hide TrimOws, OwsStart;
    ConnectionSaysAppend(fields, f, "close");
    ConnectionSaysAppend(fields, f, "keep-alive");
    LastValueAppend(fields, f, ContentLength);
    LastValueAppend(fields, f, TransferEncoding);
  }

  /** Recording one more field keeps the state a faithful reading of the list. */
  lemma FieldRead(s: ParserState, s0: ParserState, fields: seq<FieldLine>, f: FieldLine, buffer: string, off: nat)
    requires Reflects(s, s0, fields, buffer)
    requires At(buffer, off, f.raw) && off + |f.raw| <= s.pos
    requires KindOf(f.name) == ContentLength ==> FromChars(TrimOws(f.raw), 10, SIZE_MAX).Some?
    ensures var r := FieldStep(s, f.name, f.raw, off);
            r.Next? && r.s.pos == s.pos && Reflects(r.s, s0, fields + [f], buffer)
  {
    hide KindOf, HasToken, FromChars, LastTransferEncodingIsChunked, LastValue, StoredFields, ReflectsFlags, TrimOws,
         OwsStart, At;
    RawValueSlice(buffer, off, f.raw);
    FlagsRead(s, fields, f, off);
    LastValueAppend(fields, f, ContentType);
    OneMoreStored(s0.resp.headers, StoredFields(fields), Header(f.name, TrimOws(f.raw)));
  }

  lemma OneMoreStored(before: seq<Header>, stored: seq<Header>, h: Header)
    ensures before + stored + [h] == before + (stored + [h])
  {
  }

  lemma ChopWithCr(text: string, cr: bool)
    requires CleanEnd(text, cr)
    ensures ChopCr(WithCr(text, cr)) == text
    ensures IsLine(WithCr(text, cr))
  {
    assert (text + "\r")[..|text|] == text;
  }

  /** The rendered field line splits at its first colon. */
  lemma FieldLineParts(f: FieldLine)
    requires WellFormedField(f)
    ensures var line := ChopCr(LineOf(f));
            && line != [] && Find(line, ':') == |f.name| < |line|
            && line[..|f.name|] == f.name && line[|f.name| + 1..] == f.raw
            && |line| <= |LineOf(f)|
    ensures IsLine(LineOf(f))
  {
    hide KindOf, FromChars, TrimOws;
    var text := f.name + ":" + f.raw;
    ChopWithCr(text, f.cr);
    assert text[|f.name|] == ':' && text[..|f.name|] == f.name && text[|f.name| + 1..] == f.raw;
    FindAt(text, ':', |f.name|);
  }

  /** A well-formed field line leads to its field being recorded. */
  lemma FieldLineStep(s: ParserState, f: FieldLine, buffer: string, eof: bool, max: nat)
    requires s.Valid(|buffer|) && s.phase == Headers && WellFormedField(f)
    requires At(buffer, s.pos, LineOf(f) + "\n") && s.pos + |LineOf(f)| + 1 <= max
    ensures HeadStep(s, buffer, eof, max)
         == FieldStep(s.(pos := s.pos + |LineOf(f)| + 1), f.name, f.raw, s.pos + |f.name| + 1)
  {
    hide KindOf, FieldStep, FromChars, TrimOws, LineOf, At, FindFrom, Find, ChopCr;
    FieldLineParts(f);
    LineAt(buffer, s.pos, LineOf(f));
  }

  /** A run over one well-formed field line moves past it and has read the field. */
  lemma FieldLineRead(s: ParserState, s0: ParserState, fields: seq<FieldLine>, f: FieldLine,
                      buffer: string, eof: bool, max: nat)
    returns (t: ParserState)
    requires Reflects(s, s0, fields, buffer) && WellFormedField(f)
    requires At(buffer, s.pos, LineOf(f) + "\n") && s.pos + |LineOf(f)| + 1 <= max
    ensures HeadStep(s, buffer, eof, max) == Next(t)
    ensures Reflects(t, s0, fields + [f], buffer) && t.pos == s.pos + |LineOf(f)| + 1
  {
    hide Reflects, LineOf, HeadStep, FieldStep, KindOf, FromChars, TrimOws, At;
    var s1 := s.(pos := s.pos + |LineOf(f)| + 1);
    var off := s.pos + |f.name| + 1;
    ReflectsMoves(s, s0, fields, buffer, s1.pos);
    FieldLineStep(s, f, buffer, eof, max);
    RawValueAt(buffer, s.pos, f);
    FieldRead(s1, s0, fields, f, buffer, off);
    t := FieldStep(s1, f.name, f.raw, off).s;
  }

  lemma ReflectsMoves(s: ParserState, s0: ParserState, fields: seq<FieldLine>, buffer: string, pos: nat)
    requires Reflects(s, s0, fields, buffer)
    ensures s.Valid(|buffer|) && s.phase == Headers
    ensures s.pos <= pos <= |buffer| ==> Reflects(s.(pos := pos), s0, fields, buffer)
  {
  }

  lemma RawValueAt(buffer: string, at: nat, f: FieldLine)
    requires At(buffer, at, LineOf(f) + "\n")
    ensures at + |LineOf(f)| + 1 <= |buffer|
    ensures |f.name| + 1 + |f.raw| <= |LineOf(f)|
    ensures At(buffer, at + |f.name| + 1, f.raw)
  {
    var tail := if f.cr then "\r\n" else "\n";
    assert LineOf(f) + "\n" == (f.name + ":") + (f.raw + tail);
    AtSplit(buffer, at, f.name + ":", f.raw + tail);
    AtSplit(buffer, at + |f.name| + 1, f.raw, tail);
  }

  // -------------------------------------------------------------- the whole head

  /** One head step that goes on is one unrolling of the call. */
  lemma RunHeadStep(s: ParserState, buffer: string, eof: bool, max: nat, codec: Option<Codec>)
    requires s.Valid(|buffer|) && s.InHead()
    ensures var r := HeadStep(s, buffer, eof, max);
            ParseRun(s, buffer, eof, max, codec) ==
            if r.Next? then ParseRun(r.s, buffer, eof, max, codec)
            else Conclude(ParseResult(r.status, r.s), buffer, codec)
  {
    hide HeadStep;
  }

  lemma {:induction false} FieldsRead(
      s: ParserState, s0: ParserState, done: seq<FieldLine>, todo: seq<FieldLine>, blank: string,
      buffer: string, eof: bool, max: nat, codec: Option<Codec>)
    returns (t: ParserState)
    requires Reflects(s, s0, done, buffer)
    requires forall i :: 0 <= i < |todo| ==> WellFormedField(todo[i])
    requires At(buffer, s.pos, RenderLines(LinesOf(todo), blank))
    requires s.pos + |RenderLines(LinesOf(todo), blank)| <= max
    ensures s.Valid(|buffer|) && Reflects(t, s0, done + todo, buffer) && t.Valid(|buffer|)
    ensures t.pos + |blank| + 1 == s.pos + |RenderLines(LinesOf(todo), blank)|
    ensures At(buffer, t.pos, blank + "\n")
    ensures ParseRun(s, buffer, eof, max, codec) == ParseRun(t, buffer, eof, max, codec)
    decreases |todo|
  {
    hide Reflects, LineOf, HeadStep, WellFormedField, At, ParseRun;
    ReflectsMoves(s, s0, done, buffer, s.pos);
    if todo == [] {
      assert done + todo == done;
      t := s;
    } else {
      var f, rest := todo[0], todo[1..];
      assert LinesOf(todo)[0] == LineOf(f) && LinesOf(todo)[1..] == LinesOf(rest);
      AtSplit(buffer, s.pos, LineOf(f) + "\n", RenderLines(LinesOf(rest), blank));
      var s1 := FieldLineRead(s, s0, done, f, buffer, eof, max);
      RunHeadStep(s, buffer, eof, max, codec);
      t := FieldsRead(s1, s0, done + [f], rest, blank, buffer, eof, max, codec);
      assert done + [f] + rest == done + todo;
    }
  }

  /** Nothing of a previous block is left in the flags. */
  ghost predicate Cleared(s: ParserState) {
    && s.phase == StatusLine && !s.head.closeSeen && !s.head.keepAliveSeen
    && !s.head.hasContentLength && !s.head.chunked && s.head.contentTypeLen == 0
  }

  /** The state after a status line. */
  function AfterStatus(s: ParserState, t: StatusText, pos: nat): ParserState
    requires FromChars(t.code, 10, UINT16_MAX).Some? && ValidVersion(t.version)
  {
    s.(pos := pos, phase := Headers,
       head := s.head.(http11 := t.version[5] == '1' && t.version[7] == '1', statusCode := CodeOf(t)),
       resp := s.resp.(status := CodeOf(t),
                       reason := if t.reason.Some? then TrimOws(t.reason.value) else s.resp.reason))
  }

  /** A status line splits at its first and second spaces. */
  lemma StatusTextParts(t: StatusText)
    requires ValidVersion(t.version) && ' ' !in t.version && ' ' !in t.code
    ensures var line := StatusLineText(t);
            && Find(line, ' ') == 8 < |line| && line[..8] == t.version
            && line[5] == t.version[5] && line[7] == t.version[7]
            && var rest := line[9..];
               var sp2 := Find(rest, ' ');
               && rest[..sp2] == t.code
               && (sp2 < |rest| <==> t.reason.Some?)
               && (sp2 < |rest| ==> rest[sp2 + 1..] == t.reason.value)
  {
    var line := StatusLineText(t);
    assert line[..8] == t.version && line[8] == ' ';
    FindAt(line, ' ', 8);
    var rest := line[9..];
    assert rest == t.code + (if t.reason.Some? then " " + t.reason.value else "");
    if t.reason.Some? {
      assert rest[..|t.code|] == t.code && rest[|t.code|] == ' ';
      FindAt(rest, ' ', |t.code|);
      assert rest[|t.code| + 1..] == t.reason.value;
    } else {
      assert rest == t.code;
      FindAbsent(rest, ' ');
    }
  }

  lemma StatusLineRead(s: ParserState, t: StatusText)
    requires WellFormedStatus(t)
    ensures StatusLineStep(s, StatusLineText(t)) == Next(AfterStatus(s, t, s.pos))
  {
    hide Find, FromChars, TrimOws, StatusLineText;
    StatusTextParts(t);
  }

  /** A well-formed status line at the cursor is read into the response. */
  lemma StatusRead(s: ParserState, h: Head, buffer: string, eof: bool, max: nat)
    requires s.Valid(|buffer|) && s.phase == StatusLine
    requires WellFormedStatus(h.status) && CleanEnd(StatusLineText(h.status), h.statusCr)
    requires var line := WithCr(StatusLineText(h.status), h.statusCr);
             At(buffer, s.pos, line + "\n") && s.pos + |line| + 1 <= max
    ensures HeadStep(s, buffer, eof, max)
         == Next(AfterStatus(s, h.status, s.pos + |WithCr(StatusLineText(h.status), h.statusCr)| + 1))
  {
    hide StatusLineStep, FromChars, TrimOws, StatusLineText, At, FindFrom, ChopCr, WithCr;
    var line := WithCr(StatusLineText(h.status), h.statusCr);
    ChopWithCr(StatusLineText(h.status), h.statusCr);
    LineAt(buffer, s.pos, line);
    StatusLineRead(s.(pos := s.pos + |line| + 1), h.status);
  }

  /** The empty list of fields is reflected by a freshly read status line. */
  lemma NothingRead(s: ParserState, t: StatusText, pos: nat, buffer: string)
    requires s.Valid(|buffer|) && Cleared(s) && WellFormedStatus(t) && s.pos <= pos <= |buffer|
    ensures var s0 := AfterStatus(s, t, pos); Reflects(s0, s0, [], buffer)
  {
    hide FromChars, TrimOws;
    var s0 := AfterStatus(s, t, pos);
    assert s0.resp.headers + StoredFields([]) == s0.resp.headers;
  }

  /** Status line and fields of a well-formed head: the run stands at the blank line, all fields read. */
  lemma FieldBlockRead(s: ParserState, h: Head, buffer: string, eof: bool, max: nat, codec: Option<Codec>)
    returns (t: ParserState)
    requires s.Valid(|buffer|) && Cleared(s) && WellFormedHead(h)
    requires At(buffer, s.pos, RenderHead(h)) && s.pos + |RenderHead(h)| <= max
    ensures t.Valid(|buffer|) && t.pos + |h.blank| + 1 == s.pos + |RenderHead(h)|
    ensures At(buffer, t.pos, h.blank + "\n")
    ensures Reflects(t, AfterStatus(s, h.status, 0).(pos := t.pos), h.fields, buffer)
    ensures ParseRun(s, buffer, eof, max, codec) == ParseRun(t, buffer, eof, max, codec)
  {
    hide At, ParseRun, HeadStep, FromChars, TrimOws, StatusLineText, WithCr, Reflects, LinesOf, RenderLines,
         WellFormedField;
    var line := WithCr(StatusLineText(h.status), h.statusCr);
    AtSplit(buffer, s.pos, line + "\n", RenderLines(LinesOf(h.fields), h.blank));
    AtWithin(buffer, s.pos, line + "\n");
    StatusRead(s, h, buffer, eof, max);
    RunHeadStep(s, buffer, eof, max, codec);
    var s0 := AfterStatus(s, h.status, s.pos + |line| + 1);
    NothingRead(s, h.status, s.pos + |line| + 1, buffer);
    t := FieldsRead(s0, s0, [], h.fields, h.blank, buffer, eof, max, codec);
    assert [] + h.fields == h.fields;
    ReflectsBase(t, s0, h.fields, buffer);
  }

  lemma AtWithin(buffer: string, at: nat, text: string)
    requires At(buffer, at, text)
    ensures at + |text| <= |buffer|
  {
  }

  lemma ReflectsBase(s: ParserState, s0: ParserState, fields: seq<FieldLine>, buffer: string)
    requires Reflects(s, s0, fields, buffer)
    ensures Reflects(s, s0.(pos := s.pos), fields, buffer)
  {
    hide ReflectsFlags, ContentTypeSaid, StoredFields;
  }

  // ------------------------------------------------------------------- theorems

  /** The blank line hands the state on, past the line. */
  lemma BlankRead(s: ParserState, blank: string, buffer: string, eof: bool, max: nat)
    requires s.Valid(|buffer|) && s.phase == Headers && IsBlank(blank)
    requires At(buffer, s.pos, blank + "\n") && s.pos + |blank| + 1 <= max
    ensures HeadStep(s, buffer, eof, max) == BlankLineStep(s.(pos := s.pos + |blank| + 1))
  {
    hide BlankLineStep, FindFrom;
    LineAt(buffer, s.pos, blank);
  }

  /** The phase in which a framed message continues. */
  function PhaseFor(framing: Framing, remaining: nat): Phase {
    match framing
    case NoBody => Done
    case Chunked => BodyChunkSize
    case Length => if remaining == 0 then Done else BodyLength
    case UntilClose => BodyUntilClose
  }

  /** What is known once the head `h` of a final response has been parsed from state `s`. */
  ghost predicate Framed(s: ParserState, h: Head, t: ParserState, buffer: string)
    requires WellFormedStatus(h.status)
  {
    && t.Valid(|buffer|) && !t.InHead()
    && t.body.framing == FramingSaid(s.head.headRequest, CodeOf(h.status), h.fields)
    && t.body.keepAlive == KeepAliveSaid(t.body.framing, h.status.version, h.fields)
    && (t.body.framing == Length ==>
          LastValue(h.fields, ContentLength).Some? &&
          FromChars(LastValue(h.fields, ContentLength).value, 10, SIZE_MAX) == Some(t.body.remaining))
    && t.phase == PhaseFor(t.body.framing, t.body.remaining)
    && t.body.start == t.pos && t.body.buf == s.body.buf
    && ContentTypeOf(t.head, buffer) == ContentTypeSaid(h.fields)
    && t.resp == AfterStatus(s, h.status, 0).resp.(headers := s.resp.headers + StoredFields(h.fields))
  }

  lemma FramingRead(s: ParserState, h: Head, u: ParserState, pos: nat, buffer: string)
    requires WellFormedStatus(h.status) && CodeOf(h.status) >= 200
    requires Reflects(u, AfterStatus(s, h.status, 0).(pos := u.pos), h.fields, buffer)
    requires u.pos <= pos <= |buffer|
    ensures var r := BlankLineStep(u.(pos := pos));
            && r.s.pos == pos && Framed(s, h, r.s, buffer)
            && (r.Halt? <==> r.s.phase == Done) && (r.Halt? ==> r.status == Complete)
  {
    hide FromChars, TrimOws, KindOf, LastValue, StoredFields, ConnectionSays, SaysChunked, ContentTypeSaid;
  }

  /**
   Parsing the rendering of any well-formed final head leaves the framing, the
   keep-alive decision, the content type and the response that the head as a whole
   says; a bodyless or empty message completes there and then.
   */
  lemma HeadMeaning(s: ParserState, h: Head, buffer: string, eof: bool, max: nat, codec: Option<Codec>)
    returns (t: ParserState)
    requires s.Valid(|buffer|) && Cleared(s) && WellFormedHead(h) && CodeOf(h.status) >= 200
    requires At(buffer, s.pos, RenderHead(h)) && s.pos + |RenderHead(h)| <= max
    ensures t.pos == s.pos + |RenderHead(h)| && Framed(s, h, t, buffer)
    ensures ParseRun(s, buffer, eof, max, codec)
         == if t.phase == Done then InstallBody(t, buffer, codec) else ParseRun(t, buffer, eof, max, codec)
  {
    hide ParseRun, HeadStep, Reflects, RenderHead, InstallBody, At, FromChars, BlankLineStep, Framed;
    var u := FieldBlockRead(s, h, buffer, eof, max, codec);
    ReflectsMoves(u, AfterStatus(s, h.status, 0).(pos := u.pos), h.fields, buffer, u.pos);
    AtWithin(buffer, u.pos, h.blank + "\n");
    BlankRead(u, h.blank, buffer, eof, max);
    RunHeadStep(u, buffer, eof, max, codec);
    FramingRead(s, h, u, u.pos + |h.blank| + 1, buffer);
    t := BlankLineStep(u.(pos := u.pos + |h.blank| + 1)).s;
  }
}
