/**
 Interim (1xx) responses in front of a response.

 Any number of well-formed interim heads is skipped, and the rest of the stream is
 then parsed exactly as if it stood alone -- same verdict, framing, body and
 keep-alive decision -- except that the size budget also counts the skipped bytes
 and that interim fields and reason stay behind in the response object.
 */
module ParserInterim {
  import opened Text
  import opened ResponseParsing
  import opened ParserHead
  import opened ParserBudget

  // ----------------------------------------------------- skipping interim heads

  ghost predicate InterimHead(h: Head) {
    WellFormedHead(h) && CodeOf(h.status) < 200
  }

  function RenderHeads(heads: seq<Head>): string {
    if heads == [] then "" else RenderHead(heads[0]) + RenderHeads(heads[1..])
  }

  /** Fields left in the response by the skipped heads. */
  ghost function LeftoverFields(heads: seq<Head>): seq<Header> {
    if heads == [] then [] else StoredFields(heads[0].fields) + LeftoverFields(heads[1..])
  }

  /** The last reason phrase the skipped heads carried, or the one already there. */
  ghost function LeftoverReason(heads: seq<Head>, reason: string): string {
    if heads == [] then reason
    else LeftoverReason(heads[1..],
           if heads[0].status.reason.Some? then TrimOws(heads[0].status.reason.value) else reason)
  }

  /** What a skipped interim head leaves of state `s`. */
  ghost predicate Skipped(s: ParserState, t: ParserState, extra: seq<Header>, reason: string) {
    && Cleared(t) && t.head.headRequest == s.head.headRequest
    && t.body.(remaining := 0) == s.body.(remaining := 0)
    && t.resp.headers == s.resp.headers + extra && t.resp.reason == reason && t.resp.payload == s.resp.payload
  }

  lemma InterimSkipped(s: ParserState, h: Head, buffer: string, eof: bool, max: nat, codec: Option<Codec>)
    returns (t: ParserState)
    requires s.Valid(|buffer|) && Cleared(s) && InterimHead(h)
    requires At(buffer, s.pos, RenderHead(h)) && s.pos + |RenderHead(h)| <= max
    ensures t.Valid(|buffer|) && t.pos == s.pos + |RenderHead(h)|
    ensures Skipped(s, t, StoredFields(h.fields), LeftoverReason([h], s.resp.reason))
    ensures ParseRun(s, buffer, eof, max, codec) == ParseRun(t, buffer, eof, max, codec)
  {
    hide ParseRun, HeadStep, RenderHead, At, FromChars, TrimOws, StoredFields, ReflectsFlags, ContentTypeSaid;
    var u := FieldBlockRead(s, h, buffer, eof, max, codec);
    AtWithin(buffer, u.pos, h.blank + "\n");
    BlankRead(u, h.blank, buffer, eof, max);
    RunHeadStep(u, buffer, eof, max, codec);
    t := BlankLineStep(u.(pos := u.pos + |h.blank| + 1)).s;
    assert LeftoverReason([h][1..], "") == "";
  }

  lemma {:induction false} InterimsSkipped(
      s: ParserState, heads: seq<Head>, buffer: string, eof: bool, max: nat, codec: Option<Codec>)
    returns (t: ParserState)
    requires s.Valid(|buffer|) && Cleared(s)
    requires forall i :: 0 <= i < |heads| ==> InterimHead(heads[i])
    requires At(buffer, s.pos, RenderHeads(heads)) && s.pos + |RenderHeads(heads)| <= max
    ensures t.Valid(|buffer|) && t.pos == s.pos + |RenderHeads(heads)|
    ensures Skipped(s, t, LeftoverFields(heads), LeftoverReason(heads, s.resp.reason))
    ensures ParseRun(s, buffer, eof, max, codec) == ParseRun(t, buffer, eof, max, codec)
    decreases |heads|
  {
    hide ParseRun, RenderHead, At, TrimOws, StoredFields, WellFormedHead;
    if heads == [] {
      t := s;
    } else {
      AtSplit(buffer, s.pos, RenderHead(heads[0]), RenderHeads(heads[1..]));
      var u := InterimSkipped(s, heads[0], buffer, eof, max, codec);
      t := InterimsSkipped(u, heads[1..], buffer, eof, max, codec);
      assert [heads[0]][1..] == [];
      assert s.resp.headers + StoredFields(heads[0].fields) + LeftoverFields(heads[1..])
          == s.resp.headers + LeftoverFields(heads);
    }
  }

  // ------------------------------------------------------------- shifted parsing

  /** Same flags; the Content-Type value sits `d` further. */
  ghost predicate ShiftedHead(h: HeadInfo, h': HeadInfo, d: nat, atStart: bool) {
    && h'.headRequest == h.headRequest && h'.closeSeen == h.closeSeen && h'.keepAliveSeen == h.keepAliveSeen
    && h'.hasContentLength == h.hasContentLength && h'.chunked == h.chunked
    && h'.contentTypeLen == h.contentTypeLen
    && (h.contentTypeLen > 0 ==> h'.contentTypeOff == h.contentTypeOff + d)
    && (!atStart ==> h'.statusCode == h.statusCode && h'.http11 == h.http11)
  }

  ghost predicate ShiftedResponse(r: HttpResponse, r': HttpResponse, extra: seq<Header>, atStart: bool) {
    && r'.headers == extra + r.headers && r'.payload == r.payload
    && (!atStart ==> r'.status == r.status)
  }

  /**
   State `t` on `pre + rest` mirrors state `s` on `rest`, with |pre| == d: everything
   that decides the outcome is equal, offsets are `d` further.
   */
  ghost predicate Shifted(s: ParserState, t: ParserState, d: nat, extra: seq<Header>) {
    && t.pos == s.pos + d && t.phase == s.phase
    && ShiftedHead(s.head, t.head, d, s.phase == StatusLine)
    && ShiftedResponse(s.resp, t.resp, extra, s.phase == StatusLine)
    && t.body.framing == s.body.framing && t.body.keepAlive == s.body.keepAlive && t.body.buf == s.body.buf
    && (!s.InHead() ==> t.body.start == s.body.start + d)
    && (s.head.hasContentLength && s.InHead() ==> t.body.remaining == s.body.remaining)
    && (s.phase == BodyLength || s.phase == BodyChunkData ==> t.body.remaining == s.body.remaining)
  }

  /** Outcomes that mirror each other. */
  ghost predicate ShiftedOutcome(r: Outcome, r': Outcome, d: nat, extra: seq<Header>) {
    && r'.Next? == r.Next? && (r.Halt? ==> r'.status == r.status)
    && ((r.Halt? && r.status == Error) || Shifted(r.s, r'.s, d, extra))
  }

  lemma ShiftedSearch(pre: string, rest: string, from: nat)
    requires from <= |rest|
    ensures FindFrom(pre + rest, '\n', |pre| + from) == |pre| + FindFrom(rest, '\n', from)
    ensures var nl := FindFrom(rest, '\n', from);
            (pre + rest)[|pre| + from..|pre| + nl] == rest[from..nl]
  {
    var b, nl := pre + rest, FindFrom(rest, '\n', from);
    assert forall i :: 0 <= i < |rest| ==> b[|pre| + i] == rest[i];
    if nl < |rest| {
      FindFromAt(b, '\n', |pre| + from, |pre| + nl);
    } else {
      assert forall i :: |pre| <= i < |b| ==> b[i] == rest[i - |pre|];
    }
  }

  lemma ShiftedStatusLine(s: ParserState, t: ParserState, line: string, d: nat, extra: seq<Header>)
    requires Shifted(s, t, d, extra) && s.phase == StatusLine
    ensures ShiftedOutcome(StatusLineStep(s, line), StatusLineStep(t, line), d, extra)
  {
    hide Find, FromChars, TrimOws, ValidVersion;
  }

  lemma ShiftedField(s: ParserState, t: ParserState, name: string, raw: string, off: nat, d: nat, extra: seq<Header>)
    requires Shifted(s, t, d, extra) && s.phase == Headers
    requires off + |raw| <= s.pos && s.Valid(s.pos) && t.Valid(t.pos)
    ensures ShiftedOutcome(FieldStep(s, name, raw, off), FieldStep(t, name, raw, off + d), d, extra)
  {
    hide Find, FromChars, TrimOws, OwsStart, KindOf, HasToken, LastTransferEncodingIsChunked;
    match KindOf(name)
    case ContentType =>
    case ContentLength =>
    case TransferEncoding =>
    case _ =>
      var h := Header(name, TrimOws(raw));
      assert extra + s.resp.headers + [h] == extra + (s.resp.headers + [h]);
  }

  lemma ShiftedBlank(s: ParserState, t: ParserState, d: nat, extra: seq<Header>)
    requires Shifted(s, t, d, extra) && s.phase == Headers
    ensures ShiftedOutcome(BlankLineStep(s), BlankLineStep(t), d, extra)
  {
  }

  lemma ShiftedLine(s: ParserState, t: ParserState, line: string, start: nat, d: nat, extra: seq<Header>)
    requires Shifted(s, t, d, extra) && s.InHead()
    requires s.Valid(s.pos) && t.Valid(t.pos) && start + |line| <= s.pos
    ensures ShiftedOutcome(LineStep(s, line, start), LineStep(t, line, start + d), d, extra)
  {
    hide Shifted, StatusLineStep, FieldStep, BlankLineStep;
    assert t.phase == s.phase by { ShiftedFacts(s, t, d, extra); }
    if s.phase == StatusLine {
      ShiftedStatusLine(s, t, line, d, extra);
    } else if line == [] {
      ShiftedBlank(s, t, d, extra);
    } else if 0 < Find(line, ':') < |line| {
      var colon := Find(line, ':');
      ShiftedField(s, t, line[..colon], line[colon + 1..], start + colon + 1, d, extra);
    }
  }

  lemma ShiftedFacts(s: ParserState, t: ParserState, d: nat, extra: seq<Header>)
    requires Shifted(s, t, d, extra)
    ensures t.phase == s.phase && t.pos == s.pos + d
    ensures s.InHead() ==> forall p: nat :: Shifted(s.(pos := p), t.(pos := p + d), d, extra)
  {
  }

  /** One head step mirrors, unless the skipped bytes push the line past the budget. */
  lemma ShiftedHeadStep(s: ParserState, t: ParserState, pre: string, rest: string, eof: bool, max: nat,
                        extra: seq<Header>)
    requires Shifted(s, t, |pre|, extra) && s.InHead()
    requires s.Valid(|rest|) && t.Valid(|pre + rest|)
    ensures var r, r' := HeadStep(s, rest, eof, max), HeadStep(t, pre + rest, eof, max);
            var nl := FindFrom(rest, '\n', s.pos);
            var end := if nl == |rest| then nl else nl + 1;
            if end + |pre| <= max then ShiftedOutcome(r, r', |pre|, extra)
            else r'.Halt? && r'.status == Error
  {
    hide Shifted, LineStep, FindFrom, ChopCr, ShiftedOutcome;
    ShiftedSearch(pre, rest, s.pos);
    ShiftedFacts(s, t, |pre|, extra);
    var nl := FindFrom(rest, '\n', s.pos);
    if nl < |rest| && nl + 1 + |pre| <= max {
      var s1, t1 := s.(pos := nl + 1), t.(pos := nl + 1 + |pre|);
      ShiftedLine(s1, t1, ChopCr(rest[s.pos..nl]), s.pos, |pre|, extra);
    } else if nl == |rest| && nl + |pre| <= max {
      ShiftedHalt(HeadStep(s, rest, eof, max), HeadStep(t, pre + rest, eof, max), |pre|, extra);
    }
  }

  lemma ShiftedHalt(r: Outcome, r': Outcome, d: nat, extra: seq<Header>)
    requires r.Halt? && r'.Halt? && r.status == r'.status && Shifted(r.s, r'.s, d, extra)
    ensures ShiftedOutcome(r, r', d, extra)
  {
  }

  lemma ShiftedPlainStep(s: ParserState, t: ParserState, d: nat, size: nat, eof: bool, max: nat, extra: seq<Header>)
    requires Shifted(s, t, d, extra) && (s.phase == BodyLength || s.phase == BodyUntilClose)
    requires s.Valid(size) && t.Valid(size + d)
    ensures s.phase == BodyLength ==>
              ShiftedOutcome(LengthStep(s, size, eof, max), LengthStep(t, size + d, eof, max), d, extra)
    ensures s.phase == BodyUntilClose ==>
              ShiftedOutcome(UntilCloseStep(s, size, eof, max), UntilCloseStep(t, size + d, eof, max), d, extra)
  {
  }

  lemma ShiftedChunkData(s: ParserState, t: ParserState, pre: string, rest: string, eof: bool, max: nat,
                         extra: seq<Header>)
    requires Shifted(s, t, |pre|, extra) && s.phase == BodyChunkData
    requires s.Valid(|rest|) && t.Valid(|pre + rest|)
    ensures ShiftedOutcome(ChunkDataStep(s, rest, eof, max), ChunkDataStep(t, pre + rest, eof, max), |pre|, extra)
  {
    var n := Take(s, |rest|);
    assert (pre + rest)[t.pos..t.pos + n] == rest[s.pos..s.pos + n];
  }

  lemma ShiftedChunkLine(s: ParserState, t: ParserState, line: string, after: nat, d: nat, extra: seq<Header>)
    requires Shifted(s, t, d, extra) && s.InChunks() && s.phase != BodyChunkData
    requires s.pos < after && s.Valid(after) && t.Valid(after + d)
    ensures ShiftedOutcome(ChunkLineStep(s, line, after), ChunkLineStep(t, line, after + d), d, extra)
  {
    hide ChunkSizeOf;
  }

  /** Past the head the budget no longer depends on what was skipped. */
  lemma ShiftedBodyStep(s: ParserState, t: ParserState, pre: string, rest: string, eof: bool, max: nat,
                        extra: seq<Header>)
    requires Shifted(s, t, |pre|, extra) && !s.InHead() && s.phase != Done
    requires s.Valid(|rest|) && t.Valid(|pre + rest|)
    ensures ShiftedOutcome(BodyStep(s, rest, eof, max), BodyStep(t, pre + rest, eof, max), |pre|, extra)
  {
    hide FindFrom, ChunkLineStep, ChunkDataStep, LengthStep, UntilCloseStep, Shifted, ShiftedOutcome;
    ShiftedFacts(s, t, |pre|, extra);
    if s.phase == BodyChunkData {
      ShiftedChunkData(s, t, pre, rest, eof, max, extra);
    } else if s.phase == BodyLength || s.phase == BodyUntilClose {
      ShiftedPlainStep(s, t, |pre|, |rest|, eof, max, extra);
    } else {
      ShiftedSearch(pre, rest, s.pos);
      var nl := FindFrom(rest, '\n', s.pos);
      if nl < |rest| {
        ShiftedChunkLine(s, t, rest[s.pos..nl], nl + 1, |pre|, extra);
      } else {
        ShiftedHalt(BodyStep(s, rest, eof, max), BodyStep(t, pre + rest, eof, max), |pre|, extra);
      }
    }
  }

  // -------------------------------------------------------------- installing

  predicate Encodes(headers: seq<Header>) {
    exists i :: 0 <= i < |headers| && EqualIgnoreCase(headers[i].name, CONTENT_ENCODING)
  }

  /** Extra fields that do not speak of the encoding do not change its lookup or removal. */
  lemma {:induction false} EncodingLookup(extra: seq<Header>, headers: seq<Header>)
    requires !Encodes(extra)
    ensures HeaderValueOrEmpty(extra + headers, CONTENT_ENCODING) == HeaderValueOrEmpty(headers, CONTENT_ENCODING)
    decreases |extra|
  {
    hide EqualIgnoreCase;
    if extra == [] {
      assert extra + headers == headers;
    } else {
      assert (extra + headers)[1..] == extra[1..] + headers;
      EncodingLookup(extra[1..], headers);
    }
  }

  lemma {:induction false} EncodingRemoval(extra: seq<Header>, headers: seq<Header>)
    requires !Encodes(extra)
    ensures RemoveHeaderLine(extra + headers, CONTENT_ENCODING)
         == extra + RemoveHeaderLine(headers, CONTENT_ENCODING)
    decreases |extra| + |headers|
  {
    hide EqualIgnoreCase;
    var all := extra + headers;
    if all != [] {
      if headers != [] {
        assert all[..|all| - 1] == extra + headers[..|headers| - 1];
        EncodingRemoval(extra, headers[..|headers| - 1]);
      } else {
        assert all == extra && all[..|all| - 1] == extra[..|extra| - 1] + [];
        EncodingRemoval(extra[..|extra| - 1], []);
      }
    }
  }

  lemma ShiftedInstall(s: ParserState, t: ParserState, pre: string, rest: string, codec: Option<Codec>,
                       extra: seq<Header>)
    requires Shifted(s, t, |pre|, extra) && s.phase == Done
    requires s.Valid(|rest|) && t.Valid(|pre + rest|)
    requires codec.None? || !Encodes(extra)
    ensures var r, r' := InstallBody(s, rest, codec), InstallBody(t, pre + rest, codec);
            r'.status == r.status && (r.status != Error ==> Shifted(r.state, r'.state, |pre|, extra))
  {
    hide EqualIgnoreCase, HeaderValueOrEmpty, RemoveHeaderLine;
    var d, b := |pre|, pre + rest;
    assert b[s.body.start + d..s.pos + d] == rest[s.body.start..s.pos];
    var h := s.head;
    assert b[h.contentTypeOff + d..h.contentTypeOff + d + h.contentTypeLen]
        == rest[h.contentTypeOff..h.contentTypeOff + h.contentTypeLen];
    if codec.Some? {
      EncodingLookup(extra, s.resp.headers);
      EncodingRemoval(extra, s.resp.headers);
    }
  }

  // ------------------------------------------------------------------- theorems

  /** How much of the stream the head budget is charged for. */
  function HeadExtent(s: ParserState, size: nat): nat {
    if s.InHead() then size else s.body.start
  }

  /** Two results that mirror each other. */
  ghost predicate ShiftedResult(r: ParseResult, r': ParseResult, d: nat, extra: seq<Header>) {
    r'.status == r.status && (r.status != Error ==> Shifted(r.state, r'.state, d, extra))
  }

  /** The head that a call ends with reaches at least the line it started on. */
  lemma {:induction false} HeadExtentGrows(s: ParserState, buffer: string, eof: bool, max: nat, codec: Option<Codec>)
    requires s.Valid(|buffer|)
    ensures var r := ParseRun(s, buffer, eof, max, codec).state;
            HeadExtent(r, |buffer|) >= if s.InHead() then s.pos else s.body.start
    ensures !s.InHead() ==> !ParseRun(s, buffer, eof, max, codec).state.InHead()
    decreases |buffer| - s.pos
  {
    hide HeadStep, BodyStep, FindFrom, Installed;
    if s.phase != Done {
      if s.InHead() {
        StepExtent(s, buffer, eof, max);
      } else {
        BodyStart(s, buffer, eof, max);
      }
      var r := if s.InHead() then HeadStep(s, buffer, eof, max) else BodyStep(s, buffer, eof, max);
      if r.Next? {
        HeadExtentGrows(r.s, buffer, eof, max, codec);
      }
    }
  }

  /** A head step that leaves the head puts the body right after the line. */
  lemma StepExtent(s: ParserState, buffer: string, eof: bool, max: nat)
    requires s.Valid(|buffer|) && s.InHead()
    ensures var r := HeadStep(s, buffer, eof, max);
            && r.s.pos >= s.pos
            && (!r.s.InHead() ==> r.s.body.start == r.s.pos)
            && var nl := FindFrom(buffer, '\n', s.pos);
               && (r.Next? || r.status == Complete ==> nl < |buffer| && r.s.pos == nl + 1)
               && (r.Halt? && r.status == NeedMore ==> nl == |buffer| && r.s == s)
               && (r.Halt? && r.status == Complete ==> !r.s.InHead())
  {
    hide Find, FromChars, TrimOws, KindOf, FieldStep;
  }

  /**
   Parsing `rest` behind `pre` mirrors parsing `rest` alone if and only if the head
   still fits the budget with `pre` counted in; otherwise it is an error.
   */
  lemma {:induction false} ShiftedRun(
      s: ParserState, t: ParserState, pre: string, rest: string, eof: bool, max: nat,
      codec: Option<Codec>, extra: seq<Header>)
    requires Shifted(s, t, |pre|, extra)
    requires s.Valid(|rest|) && t.Valid(|pre + rest|)
    requires codec.None? || !Encodes(extra)
    requires !s.InHead() ==> s.body.start + |pre| <= max
    ensures var r, r' := ParseRun(s, rest, eof, max, codec), ParseRun(t, pre + rest, eof, max, codec);
            if r.status == Error then r'.status == Error
            else if HeadExtent(r.state, |rest|) + |pre| <= max then ShiftedResult(r, r', |pre|, extra)
            else r'.status == Error
    decreases |rest| - s.pos
  {
    hide Shifted, HeadStep, BodyStep, InstallBody, FindFrom, Encodes;
    ShiftedFacts(s, t, |pre|, extra);
    if s.phase == Done {
    } else if s.InHead() {
      StepExtent(s, rest, eof, max);
      ShiftedHeadStep(s, t, pre, rest, eof, max, extra);
      var r := HeadStep(s, rest, eof, max);
      if r.Next? {
        HeadExtentGrows(r.s, rest, eof, max, codec);
      }
      if r.Next? && r.s.pos + |pre| <= max {
        ShiftedRun(r.s, HeadStep(t, pre + rest, eof, max).s, pre, rest, eof, max, codec, extra);
      } else if r.Halt? && r.status == Complete && r.s.pos + |pre| <= max {
        ShiftedInstall(r.s, HeadStep(t, pre + rest, eof, max).s, pre, rest, codec, extra);
      }
    } else {
      ShiftedBodyStep(s, t, pre, rest, eof, max, extra);
      BodyStart(s, rest, eof, max);
      HeadExtentGrows(s, rest, eof, max, codec);
      var r := BodyStep(s, rest, eof, max);
      if r.Next? {
        ShiftedRun(r.s, BodyStep(t, pre + rest, eof, max).s, pre, rest, eof, max, codec, extra);
      } else if r.status == Complete {
        ShiftedInstall(r.s, BodyStep(t, pre + rest, eof, max).s, pre, rest, codec, extra);
      }
    }
  }

  lemma BodyStart(s: ParserState, buffer: string, eof: bool, max: nat)
    requires s.Valid(|buffer|) && !s.InHead() && s.phase != Done
    ensures BodyStep(s, buffer, eof, max).s.body.start == s.body.start
    ensures !BodyStep(s, buffer, eof, max).s.InHead()
  {
    hide FindFrom, ChunkSizeOf;
  }

  /** Within the budget, a response behind interim heads mirrors the response alone. */
  lemma InterimWithinBudget(heads: seq<Head>, rest: string, headRequest: bool, eof: bool, max: nat,
                            codec: Option<Codec>)
    requires forall i :: 0 <= i < |heads| ==> InterimHead(heads[i])
    requires |RenderHeads(heads)| <= max
    requires codec.None? || !Encodes(LeftoverFields(heads))
    ensures Behind(heads, rest, headRequest, eof, max, codec)
  {
    hide ParseRun, RenderHeads, LeftoverFields, Encodes, LeftoverReason, InterimHead;
    var s := Fresh(headRequest, EMPTY_RESPONSE);
    var pre := RenderHeads(heads);
    assert At(pre + rest, 0, pre);
    var t := InterimsSkipped(s, heads, pre + rest, eof, max, codec);
    assert s.resp.headers + LeftoverFields(heads) == LeftoverFields(heads) == LeftoverFields(heads) + s.resp.headers;
    ShiftedRun(s, t, pre, rest, eof, max, codec, LeftoverFields(heads));
  }

  /** What becomes of a response behind interim heads. */
  ghost predicate Behind(heads: seq<Head>, rest: string, headRequest: bool, eof: bool, max: nat, codec: Option<Codec>) {
    var s := Fresh(headRequest, EMPTY_RESPONSE);
    var pre := RenderHeads(heads);
    var r := ParseRun(s, rest, eof, max, codec);
    var r' := ParseRun(s, pre + rest, eof, max, codec);
    if r.status != Error && HeadExtent(r.state, |rest|) + |pre| <= max
    then ShiftedResult(r, r', |pre|, LeftoverFields(heads))
    else r'.status == Error
  }

  lemma LargerHeadStep(s: ParserState, buffer: string, eof: bool, max: nat, more: nat)
    requires s.Valid(|buffer|) && s.InHead() && max <= more
    ensures var r := HeadStep(s, buffer, eof, max);
            (r.Halt? && r.status == Error) || HeadStep(s, buffer, eof, more) == r
  {
    hide LineStep, FindFrom;
  }

  lemma LargerBodyStep(s: ParserState, buffer: string, eof: bool, max: nat, more: nat)
    requires s.Valid(|buffer|) && !s.InHead() && s.phase != Done && max <= more
    ensures var r := BodyStep(s, buffer, eof, max);
            (r.Halt? && r.status == Error) || BodyStep(s, buffer, eof, more) == r
  {
    hide ChunkLineStep, FindFrom;
  }

  /** A larger budget only turns errors into something else. */
  lemma {:induction false} LargerBudget(s: ParserState, buffer: string, eof: bool, max: nat, more: nat,
                                        codec: Option<Codec>)
    requires s.Valid(|buffer|) && max <= more
    ensures var r := ParseRun(s, buffer, eof, max, codec);
            r.status == Error || ParseRun(s, buffer, eof, more, codec) == r
    decreases |buffer| - s.pos
  {
    hide HeadStep, BodyStep, InstallBody;
    if s.phase != Done {
      if s.InHead() {
        LargerHeadStep(s, buffer, eof, max, more);
      } else {
        LargerBodyStep(s, buffer, eof, max, more);
      }
      var r := if s.InHead() then HeadStep(s, buffer, eof, max) else BodyStep(s, buffer, eof, max);
      if r.Next? { LargerBudget(r.s, buffer, eof, max, more, codec); }
    }
  }

  /** Interim heads that exceed the budget alone are an error. */
  lemma InterimBeyondBudget(heads: seq<Head>, rest: string, headRequest: bool, eof: bool, max: nat,
                            codec: Option<Codec>)
    requires forall i :: 0 <= i < |heads| ==> InterimHead(heads[i])
    requires |RenderHeads(heads)| > max
    requires codec.None? || !Encodes(LeftoverFields(heads))
    ensures ParseRun(Fresh(headRequest, EMPTY_RESPONSE), RenderHeads(heads) + rest, eof, max, codec).status == Error
  {
    hide ParseRun, RenderHeads, LeftoverFields, Encodes, InterimHead;
    var s, pre := Fresh(headRequest, EMPTY_RESPONSE), RenderHeads(heads);
    var r := ParseRun(s, pre + rest, eof, max, codec);
    LargerBudget(s, pre + rest, eof, max, |pre|, codec);
    InterimWithinBudget(heads, rest, headRequest, eof, |pre|, codec);
    FreshWithinBudget(headRequest, EMPTY_RESPONSE, max);
    RunWithinBudget(s, pre + rest, eof, max, codec);
    HeadExtentGrows(s, rest, eof, |pre|, codec);
  }

  /**
   Interim invariance.  A response parsed behind any number of interim heads ends as
   it would alone: same verdict, framing, body, keep-alive decision and final status
   -- exactly when the budget also covers the interim bytes.
   */
  lemma InterimInvariance(heads: seq<Head>, rest: string, headRequest: bool, eof: bool, max: nat,
                          codec: Option<Codec>)
    requires forall i :: 0 <= i < |heads| ==> InterimHead(heads[i])
    requires codec.None? || !Encodes(LeftoverFields(heads))
    ensures var s := Fresh(headRequest, EMPTY_RESPONSE);
            var pre := RenderHeads(heads);
            var r := ParseRun(s, rest, eof, max, codec);
            var r' := ParseRun(s, pre + rest, eof, max, codec);
            if r.status != Error && HeadExtent(r.state, |rest|) + |pre| <= max
            then ShiftedResult(r, r', |pre|, LeftoverFields(heads))
            else r'.status == Error
  {
    hide ParseRun, RenderHeads, LeftoverFields, Encodes, InterimHead, ShiftedResult, HeadExtent;
    if |RenderHeads(heads)| <= max {
      InterimWithinBudget(heads, rest, headRequest, eof, max, codec);
    } else {
      InterimBeyondBudget(heads, rest, headRequest, eof, max, codec);
    }
  }

  lemma HeadsShift(heads: seq<Head>, final: Head)
    requires heads != []
    ensures (heads + [final])[0] == heads[0] && (heads + [final])[1..] == heads[1..] + [final]
  {
  }

  /** A final head behind interim ones adds its fields. */
  lemma {:induction false} LeftoverFieldsAppend(heads: seq<Head>, final: Head)
    ensures LeftoverFields(heads + [final]) == LeftoverFields(heads) + StoredFields(final.fields)
    decreases |heads|
  {
    hide StoredFields;
    if heads == [] {
      assert [] + [final] == [final] && [final][1..] == [];
    } else {
      HeadsShift(heads, final);
      LeftoverFieldsAppend(heads[1..], final);
    }
  }

  /** It adds its reason if it has one. */
  lemma {:induction false} LeftoverReasonAppend(heads: seq<Head>, final: Head, reason: string)
    ensures LeftoverReason(heads + [final], reason) ==
              (if final.status.reason.Some? then TrimOws(final.status.reason.value) else LeftoverReason(heads, reason))
    decreases |heads|
  {
    hide TrimOws;
    if heads == [] {
      assert [] + [final] == [final] && [final][1..] == [];
    } else {
      HeadsShift(heads, final);
      LeftoverReasonAppend(heads[1..], final,
                           if heads[0].status.reason.Some? then TrimOws(heads[0].status.reason.value) else reason);
    }
  }

  lemma {:induction false} RenderHeadsAppend(heads: seq<Head>, final: Head)
    ensures RenderHeads(heads + [final]) == RenderHeads(heads) + RenderHead(final)
    decreases |heads|
  {
    hide RenderHead;
    if heads == [] {
      assert [] + [final] == [final] && [final][1..] == [];
      assert RenderHead(final) + "" == RenderHead(final) == "" + RenderHead(final);
    } else {
      HeadsShift(heads, final);
      RenderHeadsAppend(heads[1..], final);
      Joins(RenderHead(heads[0]), RenderHeads(heads[1..]), RenderHead(final));
    }
  }

  lemma Joins(a: string, b: string, c: string)
    ensures a + (b + c) == (a + b) + c
  {
  }

  lemma ClearedBySkipping(s: ParserState, t: ParserState, extra: seq<Header>, reason: string)
    requires Skipped(s, t, extra, reason)
    ensures Cleared(t)
  {
  }

  lemma StatusOfHead(h: Head)
    requires WellFormedHead(h)
    ensures WellFormedStatus(h.status)
  {
  }

  /** A parse from the start goes through the state `t`, behind the heads. */
  ghost predicate ComesTo(headRequest: bool, t: ParserState, buffer: string, eof: bool, max: nat,
                          codec: Option<Codec>) {
    && t.Valid(|buffer|)
    && ParseRun(Fresh(headRequest, EMPTY_RESPONSE), buffer, eof, max, codec)
       == if t.phase == Done then InstallBody(t, buffer, codec) else ParseRun(t, buffer, eof, max, codec)
  }

  /** A final head behind interim ones is read as a head of its own. */
  lemma ReadBehind(headRequest: bool, heads: seq<Head>, final: Head, buffer: string, eof: bool, max: nat,
                   codec: Option<Codec>)
    returns (u: ParserState, t: ParserState)
    requires forall i :: 0 <= i < |heads| ==> InterimHead(heads[i])
    requires WellFormedHead(final) && CodeOf(final.status) >= 200
    requires At(buffer, 0, RenderHeads(heads)) && At(buffer, |RenderHeads(heads)|, RenderHead(final))
    requires |RenderHeads(heads)| + |RenderHead(final)| <= max
    ensures Skipped(Fresh(headRequest, EMPTY_RESPONSE), u, LeftoverFields(heads), LeftoverReason(heads, ""))
    ensures WellFormedStatus(final.status) && Framed(u, final, t, buffer)
    ensures t.pos == |RenderHeads(heads)| + |RenderHead(final)|
    ensures ComesTo(headRequest, t, buffer, eof, max, codec)
  {
    hide ParseRun, RenderHeads, RenderHead, InstallBody, At, FromChars, WellFormedHead, WellFormedStatus, Skipped,
         Framed, LeftoverReason, LeftoverFields, InterimHead;
    var s := Fresh(headRequest, EMPTY_RESPONSE);
    StatusOfHead(final);
    u := InterimsSkipped(s, heads, buffer, eof, max, codec);
    ClearedBySkipping(s, u, LeftoverFields(heads), LeftoverReason(heads, ""));
    t := HeadMeaning(u, final, buffer, eof, max, codec);
    FramedValid(u, final, t, buffer);
  }

  lemma FramedValid(u: ParserState, final: Head, t: ParserState, buffer: string)
    requires WellFormedStatus(final.status) && Framed(u, final, t, buffer)
    ensures t.Valid(|buffer|)
  {
  }

  /** What the response holds then: the fields of all heads, and a reason that may not be the final one's. */
  lemma ResponseAfterHeads(headRequest: bool, heads: seq<Head>, final: Head, buffer: string, u: ParserState,
                           t: ParserState)
    requires WellFormedStatus(final.status) && Framed(u, final, t, buffer)
    requires Skipped(Fresh(headRequest, EMPTY_RESPONSE), u, LeftoverFields(heads), LeftoverReason(heads, ""))
    ensures t.resp.headers == LeftoverFields(heads) + StoredFields(final.fields)
    ensures t.resp.reason ==
            (if final.status.reason.Some? then TrimOws(final.status.reason.value) else LeftoverReason(heads, ""))
  {
    hide TrimOws, StoredFields, FromChars, LeftoverReason, LeftoverFields, FramingSaid, KeepAliveSaid, LastValue,
         ContentTypeSaid, ContentTypeOf;
    assert [] + LeftoverFields(heads) == LeftoverFields(heads);
  }

  /**
   Where the response object is not the same: behind any number of interim heads, the reason
   of a final head is its own exactly when it has one or the interim heads left nothing else.
   */
  lemma ReasonBehindInterim(headRequest: bool, heads: seq<Head>, final: Head, rest: string, eof: bool, max: nat,
                            codec: Option<Codec>)
    returns (t: ParserState)
    requires forall i :: 0 <= i < |heads| ==> InterimHead(heads[i])
    requires WellFormedHead(final) && CodeOf(final.status) >= 200
    requires |RenderHeads(heads) + RenderHead(final)| <= max
    ensures var own := if final.status.reason.Some? then TrimOws(final.status.reason.value) else "";
            var buffer := RenderHeads(heads) + RenderHead(final) + rest;
            && ComesTo(headRequest, t, buffer, eof, max, codec)
            && (t.resp.reason == own <==> final.status.reason.Some? || LeftoverReason(heads, "") == "")
            && t.resp.headers == LeftoverFields(heads) + StoredFields(final.fields)
  {
    hide ComesTo, RenderHeads, RenderHead, At, TrimOws, StoredFields, FromChars, WellFormedHead,
         LeftoverReason, LeftoverFields, InterimHead, Skipped, Framed, WellFormedStatus;
    var a, b := RenderHeads(heads), RenderHead(final);
    var buffer := a + b + rest;
    AtPieces(a, b, rest);
    var u;
    u, t := ReadBehind(headRequest, heads, final, buffer, eof, max, codec);
    ResponseAfterHeads(headRequest, heads, final, buffer, u, t);
  }

  lemma AtPieces(a: string, b: string, c: string)
    ensures At(a + b + c, 0, a) && At(a + b + c, |a|, b)
  {
    assert (a + b + c)[|a|..|a| + |b|] == b;
  }
}
