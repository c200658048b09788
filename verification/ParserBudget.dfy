/**
 Totality and size budgets of the parser, over any sequence of calls.
 */
module ParserBudget {
  import opened Text
  import opened ResponseParsing
  import opened ParserSlicing

  /** Once the peer has closed, a call never asks for more: the read loop's assertion. */
  lemma {:induction false} EofDecides(s: ParserState, buffer: string, max: nat, codec: Option<Codec>)
    requires s.Valid(|buffer|)
    ensures ParseRun(s, buffer, true, max, codec).status != NeedMore
    decreases |buffer| - s.pos
  {
    hide LineStep, FindFrom, ChunkSizeOf, Installed;
    if s.phase != Done {
      var r := if s.InHead() then HeadStep(s, buffer, true, max) else BodyStep(s, buffer, true, max);
      if r.Next? {
        EofDecides(r.s, buffer, max, codec);
      }
    }
  }

  /** Bytes of body held, before decoding. */
  function BodyHeld(s: ParserState): nat
    requires !s.InHead() ==> s.body.start <= s.pos
  {
    if s.InHead() || s.body.framing == NoBody then 0
    else if s.body.framing == Chunked then |s.body.buf| else s.pos - s.body.start
  }

  /** The head and the body each stay within `max` bytes. */
  ghost predicate WithinBudget(s: ParserState, max: nat) {
    && (!s.InHead() ==> s.body.start <= s.pos)
    && (if s.InHead() then s.pos <= max && s.body.buf == "" else s.body.start <= max)
    && BodyHeld(s) <= max
  }

  lemma FreshWithinBudget(headRequest: bool, resp: HttpResponse, max: nat)
    ensures WithinBudget(Fresh(headRequest, resp), max) && Fresh(headRequest, resp).Valid(0)
  {
  }

  lemma HeadStepWithinBudget(s: ParserState, buffer: string, eof: bool, max: nat)
    requires s.Valid(|buffer|) && s.InHead() && WithinBudget(s, max)
    ensures var r := HeadStep(s, buffer, eof, max);
            && ((r.Halt? && r.status == Error) || WithinBudget(r.s, max))
            && (r.Halt? && r.status == NeedMore ==> r.s == s && |buffer| <= max)
  {
    hide Find, FromChars, TrimOws, KindOf, HasToken, LastTransferEncodingIsChunked, OwsStart, ChopCr, FindFrom;
  }

  lemma BodyStepWithinBudget(s: ParserState, buffer: string, eof: bool, max: nat)
    requires s.Valid(|buffer|) && !s.InHead() && s.phase != Done && WithinBudget(s, max)
    ensures var r := BodyStep(s, buffer, eof, max);
            && ((r.Halt? && r.status == Error) || WithinBudget(r.s, max))
            && (r.Halt? && r.status == NeedMore && r.s.body.framing != Chunked ==> r.s.pos == |buffer|)
  {
    hide FindFrom, ChunkSizeOf;
  }

  /**
   Every call that does not fail keeps both budgets.  While a call waits for more, the
   bytes buffered are at most `max` in the head and 2 * `max` in a Length or until-close body.
   */
  lemma {:induction false} RunWithinBudget(s: ParserState, buffer: string, eof: bool, max: nat, codec: Option<Codec>)
    requires s.Valid(|buffer|) && WithinBudget(s, max)
    ensures var r := ParseRun(s, buffer, eof, max, codec);
            && (r.status == Error || WithinBudget(r.state, max))
            && (r.status == NeedMore && r.state.InHead() ==> |buffer| <= max)
            && (r.status == NeedMore && !r.state.InHead() && r.state.body.framing != Chunked ==> |buffer| <= 2 * max)
    decreases |buffer| - s.pos
  {
    hide HeadStep, BodyStep, Installed;
    if s.phase != Done {
      if s.InHead() {
        HeadStepWithinBudget(s, buffer, eof, max);
      } else {
        BodyStepWithinBudget(s, buffer, eof, max);
        BodyStepKeeps(s, buffer, eof, max);
      }
      var r := if s.InHead() then HeadStep(s, buffer, eof, max) else BodyStep(s, buffer, eof, max);
      if r.Next? {
        RunWithinBudget(r.s, buffer, eof, max, codec);
      }
    }
  }

  lemma BodyStepKeeps(s: ParserState, buffer: string, eof: bool, max: nat)
    requires s.Valid(|buffer|) && !s.InHead() && s.phase != Done
    ensures var r := BodyStep(s, buffer, eof, max);
            r.s.body.start == s.body.start && r.s.body.framing == s.body.framing
    ensures var r := BodyStep(s, buffer, eof, max);
            r.Halt? && r.status == NeedMore ==> r.s.phase == s.phase
  {
    hide FindFrom, ChunkSizeOf;
  }

  lemma {:induction false} CallsWithinBudget(
      s: ParserState, bytes: string, cuts: seq<nat>, eof: bool, max: nat, codec: Option<Codec>)
    requires ValidCuts(cuts, |bytes|) && s.Valid(if cuts == [] then |bytes| else cuts[0]) && WithinBudget(s, max)
    ensures var r := Feed(s, bytes, cuts, eof, max, codec);
            && (r.status == Error || WithinBudget(r.state, max))
            && (r.status == NeedMore && r.state.InHead() ==> |bytes| <= max)
            && (r.status == NeedMore && !r.state.InHead() && r.state.body.framing != Chunked ==> |bytes| <= 2 * max)
    decreases |cuts|
  {
    hide ParseRun, WithinBudget;
    if cuts == [] {
      RunWithinBudget(s, bytes, eof, max, codec);
    } else {
      var r := ParseRun(s, bytes[..cuts[0]], false, max, codec);
      RunWithinBudget(s, bytes[..cuts[0]], false, max, codec);
      if r.status == NeedMore {
        assert ValidCuts(cuts[1..], |bytes|);
        CallsWithinBudget(r.state, bytes, cuts[1..], eof, max, codec);
      }
    }
  }

  /**
   Budgets over every sequence of calls of a fresh parser: however the stream is sliced, head
   and body stay within `max` bytes, and waiting bounds what is buffered.
   */
  lemma FeedWithinBudget(headRequest: bool, resp: HttpResponse, bytes: string, cuts: seq<nat>, eof: bool, max: nat,
                         codec: Option<Codec>)
    requires ValidCuts(cuts, |bytes|)
    ensures Fresh(headRequest, resp).Valid(if cuts == [] then |bytes| else cuts[0])
    ensures var r := Feed(Fresh(headRequest, resp), bytes, cuts, eof, max, codec);
            && (r.status == Error || WithinBudget(r.state, max))
            && (r.status == NeedMore && r.state.InHead() ==> |bytes| <= max)
            && (r.status == NeedMore && !r.state.InHead() && r.state.body.framing != Chunked ==> |bytes| <= 2 * max)
  {
    FreshWithinBudget(headRequest, resp, max);
    CallsWithinBudget(Fresh(headRequest, resp), bytes, cuts, eof, max, codec);
  }
}
