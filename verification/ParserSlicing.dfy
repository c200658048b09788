/**
 However the network slices a response into reads, the parser reaches the same
 verdict as one call on all the bytes, and on success the same response.
 */
module ParserSlicing {
  import opened Text
  import opened ResponseParsing

  /** Same status, and the same state unless the message was rejected. */
  ghost predicate Agree(r1: ParseResult, r2: ParseResult) {
    r1.status == r2.status && (r1.status != Error ==> r1.state == r2.state)
  }

  /** Validity only asks the buffer to reach the cursor. */
  lemma ValidGrows(s: ParserState, n: nat, m: nat)
    requires s.Valid(n) && n <= m
    ensures s.Valid(m)
  {
  }

  /** The first newline of a prefix closes the same line of the whole. */
  lemma SameLine(a: string, b: string, from: nat)
    requires IsPrefix(a, b) && from <= |a|
    ensures var nl := FindFrom(a, '\n', from);
            nl < |a| ==> FindFrom(b, '\n', from) == nl && b[from..nl] == a[from..nl]
  {
    FindFromInPrefix(a, b, '\n', from);
    var nl := FindFrom(a, '\n', from);
    SliceOfSlice(b, 0, |a|, from, nl);
  }

  // ------------------------------------------------ one step on a longer buffer

  /** A head step that did not run out of input is the same on more input. */
  lemma HeadStepExtends(s: ParserState, a: string, b: string, eof: bool, max: nat)
    requires IsPrefix(a, b) && s.Valid(|a|) && s.InHead()
    ensures s.Valid(|b|)
    ensures var r, r' := HeadStep(s, a, false, max), HeadStep(s, b, eof, max);
            if r.Halt? && r.status == NeedMore then r.s == s
            else if r.Halt? && r.status == Error then r'.Halt? && r'.status == Error
            else r' == r
  {
    SameLine(a, b, s.pos);
    FindFromInPrefix(a, b, '\n', s.pos);
  }

  /** All the chunk data is there: the step is the same on more input. */
  lemma ChunkDataWhole(s: ParserState, a: string, b: string, eof: bool, max: nat)
    requires IsPrefix(a, b) && s.Valid(|a|) && s.phase == BodyChunkData && s.pos + s.body.remaining <= |a|
    ensures s.Valid(|b|)
    ensures var r, r' := ChunkDataStep(s, a, false, max), ChunkDataStep(s, b, eof, max);
            r' == r && (r.Halt? ==> r.status == Error)
  {
    SliceOfSlice(b, 0, |a|, s.pos, s.pos + s.body.remaining);
  }

  /** Some is missing: what was taken is kept, and the rest is taken from there. */
  lemma ChunkDataShort(s: ParserState, a: string, b: string, eof: bool, max: nat)
    requires IsPrefix(a, b) && s.Valid(|a|) && s.phase == BodyChunkData && s.pos + s.body.remaining > |a|
    ensures s.Valid(|b|)
    ensures var r, r' := ChunkDataStep(s, a, false, max), ChunkDataStep(s, b, eof, max);
            && r.Halt? && r.status != Complete
            && (r.status == Error ==> r'.Halt? && r'.status == Error)
            && (r.status == NeedMore ==>
                  && r.s.Valid(|b|) && r.s.phase == BodyChunkData
                  && var r'' := ChunkDataStep(r.s, b, eof, max);
                     r' == r'' || (r'.Halt? && r''.Halt? && r'.status == r''.status == Error))
  {
    hide Taken;
    var m := Take(s, |b|);
    SliceOfSlice(b, 0, |a|, s.pos, |a|);
    var first, second := b[s.pos..|a|], b[|a|..s.pos + m];
    assert b[s.pos..s.pos + m] == first + second;
    TakenTwice(s, first, second);
    TakenFields(s, first + second);
  }

  /** Taking a piece in two steps. */
  lemma TakenTwice(s: ParserState, first: string, second: string)
    requires |first| + |second| <= s.body.remaining
    ensures Taken(s, first).body.remaining == s.body.remaining - |first|
    ensures Taken(s, first).pos == s.pos + |first| && Taken(s, first).phase == s.phase
    ensures |Taken(s, first).body.buf| == |s.body.buf| + |first|
    ensures Taken(s, first).head == s.head && Taken(s, first).body.start == s.body.start
    ensures Taken(s, first).body.framing == s.body.framing
    ensures Taken(Taken(s, first), second) == Taken(s, first + second)
  {
    assert s.body.buf + first + second == s.body.buf + (first + second);
  }

  lemma TakenFields(s: ParserState, piece: string)
    requires |piece| <= s.body.remaining
    ensures Taken(s, piece).body.remaining == s.body.remaining - |piece| && Taken(s, piece).pos == s.pos + |piece|
  {
  }

  /** Length and until-close framing: only the amount taken grows. */
  lemma PlainBodyStepExtends(s: ParserState, n: nat, m: nat, eof: bool, max: nat)
    requires n <= m && s.Valid(n) && (s.phase == BodyLength || s.phase == BodyUntilClose)
    ensures s.Valid(m)
    ensures s.phase == BodyLength ==>
              var r, r' := LengthStep(s, n, false, max), LengthStep(s, m, eof, max);
              if r.status == NeedMore then
                && r.s.Valid(m) && r.s.phase == s.phase
                && var r'' := LengthStep(r.s, m, eof, max);
                   r' == r'' || (r'.status == r''.status == Error)
              else if r.status == Error then r'.status == Error
              else r' == r
    ensures s.phase == BodyUntilClose ==>
              var r, r' := UntilCloseStep(s, n, false, max), UntilCloseStep(s, m, eof, max);
              if r.status == NeedMore then
                && r.s.Valid(m) && r.s.phase == s.phase
                && var r'' := UntilCloseStep(r.s, m, eof, max);
                   r' == r'' || (r'.status == r''.status == Error)
              else r'.status == Error
  {
  }

  /**
   The same for a body step; after NeedMore, resuming from the state reached on
   the prefix is as good as stepping afresh.
   */
  lemma BodyStepExtends(s: ParserState, a: string, b: string, eof: bool, max: nat)
    requires IsPrefix(a, b) && s.Valid(|a|) && !s.InHead() && s.phase != Done
    ensures s.Valid(|b|)
    ensures var r, r' := BodyStep(s, a, false, max), BodyStep(s, b, eof, max);
            if r.Halt? && r.status == NeedMore then
              && r.s.Valid(|b|) && r.s.phase == s.phase
              && var r'' := BodyStep(r.s, b, eof, max);
                 r' == r'' || (r'.Halt? && r''.Halt? && r'.status == r''.status == Error)
            else if r.Halt? && r.status == Error then r'.Halt? && r'.status == Error
            else r' == r
  {
    hide FindFrom, ChunkSizeOf;
    if s.phase == BodyChunkData && s.pos + s.body.remaining <= |a| {
      ChunkDataWhole(s, a, b, eof, max);
    } else if s.phase == BodyChunkData {
      ChunkDataShort(s, a, b, eof, max);
    } else if !s.InChunks() {
      PlainBodyStepExtends(s, |a|, |b|, eof, max);
    } else {
      SameLine(a, b, s.pos);
      FindFromInPrefix(a, b, '\n', s.pos);
    }
  }

  /** Installing reads only bytes before the cursor. */
  lemma InstallExtends(s: ParserState, a: string, b: string, codec: Option<Codec>)
    requires IsPrefix(a, b) && s.Valid(|a|) && !s.InHead()
    ensures s.Valid(|b|)
    ensures InstallBody(s, a, codec) == InstallBody(s, b, codec)
  {
    var h := s.head;
    SliceOfSlice(b, 0, |a|, s.body.start, s.pos);
    SliceOfSlice(b, 0, |a|, h.contentTypeOff, h.contentTypeOff + h.contentTypeLen);
  }

  // ----------------------------------------------------------------- whole runs

  /**
   The key lemma.  A call on a prefix either settles the outcome for every longer
   input, or stops in a state from which resuming equals starting over.
   */
  lemma {:induction false} ResumeEqualsRestart(
      s: ParserState, a: string, b: string, eof: bool, max: nat, codec: Option<Codec>)
    requires IsPrefix(a, b) && s.Valid(|a|)
    ensures s.Valid(|b|)
    ensures var r := ParseRun(s, a, false, max, codec);
            r.state.Valid(|b|) &&
            if r.status == NeedMore
            then Agree(ParseRun(r.state, b, eof, max, codec), ParseRun(s, b, eof, max, codec))
            else Agree(r, ParseRun(s, b, eof, max, codec))
    decreases |a| - s.pos
  {
    hide HeadStep, BodyStep, InstallBody;
    if s.phase != Done {
      if s.InHead() {
        HeadStepExtends(s, a, b, eof, max);
      } else {
        BodyStepExtends(s, a, b, eof, max);
      }
      var r := if s.InHead() then HeadStep(s, a, false, max) else BodyStep(s, a, false, max);
      if r.Next? {
        ResumeEqualsRestart(r.s, a, b, eof, max, codec);
      } else if r.status == Complete {
        InstallExtends(r.s, a, b, codec);
      }
    }
  }

  /** Cut points of a byte stream: how much had arrived at each earlier call. */
  ghost predicate ValidCuts(cuts: seq<nat>, size: nat) {
    && (forall i :: 0 <= i < |cuts| ==> cuts[i] <= size)
    && (forall i, j :: 0 <= i < j < |cuts| ==> cuts[i] <= cuts[j])
  }

  /**
   The read loop as the parser sees it: one call per cut on everything received so
   far, stopping at the first call that does not ask for more; the last call sees
   all the bytes, with the end-of-stream flag `eof`.
   */
  ghost function Feed(s: ParserState, bytes: string, cuts: seq<nat>, eof: bool, max: nat, codec: Option<Codec>)
    : ParseResult
    requires ValidCuts(cuts, |bytes|)
    requires s.Valid(if cuts == [] then |bytes| else cuts[0])
    decreases |cuts|
  {
    if cuts == [] then ParseRun(s, bytes, eof, max, codec)
    else
      var r := ParseRun(s, bytes[..cuts[0]], false, max, codec);
      if r.status != NeedMore then r
      else
        assert ValidCuts(cuts[1..], |bytes|);
        Feed(r.state, bytes, cuts[1..], eof, max, codec)
  }

  /** Slicing invariance: every way of cutting the stream gives the same outcome. */
  lemma {:induction false} SlicingInvariance(
      s: ParserState, bytes: string, cuts: seq<nat>, eof: bool, max: nat, codec: Option<Codec>)
    requires ValidCuts(cuts, |bytes|)
    requires s.Valid(if cuts == [] then |bytes| else cuts[0])
    ensures s.Valid(|bytes|)
    ensures Agree(Feed(s, bytes, cuts, eof, max, codec), ParseRun(s, bytes, eof, max, codec))
    decreases |cuts|
  {
    if cuts != [] {
      var a := bytes[..cuts[0]];
      ResumeEqualsRestart(s, a, bytes, eof, max, codec);
      var r := ParseRun(s, a, false, max, codec);
      if r.status == NeedMore {
        assert ValidCuts(cuts[1..], |bytes|);
        SlicingInvariance(r.state, bytes, cuts[1..], eof, max, codec);
      }
    }
  }
}
