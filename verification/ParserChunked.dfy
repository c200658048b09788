/**
 Chunked transfer coding (section 7.1 of RFC 9112).

 `ChunkedMessage` is the lenient grammar the parser accepts, written as data with
 a renderer.  The parser completes on a chunked body exactly when the bytes are the
 rendering of such a message, and then the reassembled body is its data.
 */
module ParserChunked {
  import opened Text
  import opened ResponseParsing

  /** A size line, the bytes it announces, and whatever precedes the next newline. */
  datatype Chunk = Chunk(sizeLine: string, data: string, endLine: string)

  datatype ChunkedMessage = ChunkedMessage(chunks: seq<Chunk>, lastLine: string, trailers: seq<string>, blank: string)

  ghost predicate WellFormedChunk(c: Chunk) {
    && IsLine(c.sizeLine) && IsLine(c.endLine)
    && c.data != [] && ChunkSizeOf(c.sizeLine) == Some(|c.data|)
  }

  ghost predicate WellFormedTail(lastLine: string, trailers: seq<string>, blank: string) {
    && IsLine(lastLine) && ChunkSizeOf(lastLine) == Some(0)
    && (forall i :: 0 <= i < |trailers| ==> IsLine(trailers[i]) && !IsBlank(trailers[i]))
    && IsBlank(blank)
  }

  ghost predicate WellFormed(m: ChunkedMessage) {
    && (forall i :: 0 <= i < |m.chunks| ==> WellFormedChunk(m.chunks[i]))
    && WellFormedTail(m.lastLine, m.trailers, m.blank)
  }

  function RenderChunk(c: Chunk): string { c.sizeLine + "\n" + c.data + c.endLine + "\n" }

  function Render(m: ChunkedMessage): string
    decreases |m.chunks|
  {
    if m.chunks == [] then m.lastLine + "\n" + RenderLines(m.trailers, m.blank)
    else RenderChunk(m.chunks[0]) + Render(m.(chunks := m.chunks[1..]))
  }

  function Data(chunks: seq<Chunk>): string {
    if chunks == [] then "" else chunks[0].data + Data(chunks[1..])
  }

  // ---------------------------------------------------------- unrolling a run

  /** What a run does with the next size, chunk-end or trailer line. */
  lemma RunChunkLine(s: ParserState, buffer: string, eof: bool, max: nat)
    requires s.Valid(|buffer|) && s.InChunks() && s.phase != BodyChunkData
    ensures var nl := FindFrom(buffer, '\n', s.pos);
            var r := BodyRun(s, buffer, eof, max);
            if nl == |buffer| then r.status != Complete
            else
              var line := buffer[s.pos..nl];
              var s1 := s.(pos := nl + 1);
              if s.phase == BodyChunkCrlf then r == BodyRun(s1.(phase := BodyChunkSize), buffer, eof, max)
              else if s.phase == BodyChunkTrailers then
                (if IsBlank(line) then r == ParseResult(Complete, s1.(phase := Done))
                 else r == BodyRun(s1, buffer, eof, max))
              else
                match ChunkSizeOf(line)
                case None => r.status == Error
                case Some(n) =>
                  if n == 0 then r == BodyRun(s1.(phase := BodyChunkTrailers), buffer, eof, max)
                  else r == BodyRun(s1.(phase := BodyChunkData, body := s.body.(remaining := n)), buffer, eof, max)
  {
    hide ChunkSizeOf, FindFrom;
  }

  /** What a run does with chunk data: take it all, or not complete. */
  lemma RunChunkData(s: ParserState, buffer: string, eof: bool, max: nat)
    requires s.Valid(|buffer|) && s.phase == BodyChunkData
    ensures var r, end := BodyRun(s, buffer, eof, max), s.pos + s.body.remaining;
            if end <= |buffer| && |s.body.buf| + s.body.remaining <= max then
              r == BodyRun(s.(pos := end, phase := BodyChunkCrlf,
                              body := s.body.(remaining := 0, buf := s.body.buf + buffer[s.pos..end])),
                           buffer, eof, max)
            else r.status != Complete
  {
    hide ChunkSizeOf, FindFrom, LengthStep, UntilCloseStep, ChunkLineStep;
  }

  // ------------------------------------------------------------- completeness

  lemma {:induction false} TrailersAccepted(
      s: ParserState, buffer: string, eof: bool, max: nat, trailers: seq<string>, blank: string)
    requires s.Valid(|buffer|) && s.phase == BodyChunkTrailers
    requires forall i :: 0 <= i < |trailers| ==> IsLine(trailers[i]) && !IsBlank(trailers[i])
    requires IsBlank(blank)
    requires At(buffer, s.pos, RenderLines(trailers, blank))
    ensures BodyRun(s, buffer, eof, max)
         == ParseResult(Complete, s.(pos := s.pos + |RenderLines(trailers, blank)|, phase := Done))
    decreases |trailers|
  {
    hide BodyRun, ChunkSizeOf, FindFrom;
    RunChunkLine(s, buffer, eof, max);
    if trailers == [] {
      LineAt(buffer, s.pos, blank);
    } else {
      var line, rest := trailers[0] + "\n", RenderLines(trailers[1..], blank);
      AtSplit(buffer, s.pos, line, rest);
      LineAt(buffer, s.pos, trailers[0]);
      TrailersAccepted(s.(pos := s.pos + |line|), buffer, eof, max, trailers[1..], blank);
    }
  }

  /** The state after one more chunk. */
  function AfterChunk(s: ParserState, c: Chunk): ParserState {
    s.(pos := s.pos + |RenderChunk(c)|, body := s.body.(remaining := 0, buf := s.body.buf + c.data))
  }

  /** The three parts of a rendered chunk sit one after the other. */
  lemma ChunkParts(buffer: string, at: nat, c: Chunk)
    requires At(buffer, at, RenderChunk(c))
    ensures |RenderChunk(c)| == |c.sizeLine| + |c.data| + |c.endLine| + 2
    ensures At(buffer, at, c.sizeLine + "\n")
    ensures At(buffer, at + |c.sizeLine| + 1, c.data)
    ensures At(buffer, at + |c.sizeLine| + 1 + |c.data|, c.endLine + "\n")
  {
    assert RenderChunk(c) == (c.sizeLine + "\n") + (c.data + (c.endLine + "\n"));
    AtSplit(buffer, at, c.sizeLine + "\n", c.data + (c.endLine + "\n"));
    AtSplit(buffer, at + |c.sizeLine| + 1, c.data, c.endLine + "\n");
  }

  /** One well-formed chunk is consumed whole and its data appended. */
  lemma ChunkAccepted(s: ParserState, buffer: string, eof: bool, max: nat, c: Chunk)
    requires s.Valid(|buffer|) && s.phase == BodyChunkSize
    requires WellFormedChunk(c) && At(buffer, s.pos, RenderChunk(c))
    requires |s.body.buf| + |c.data| <= max
    ensures AfterChunk(s, c).Valid(|buffer|)
    ensures BodyRun(s, buffer, eof, max) == BodyRun(AfterChunk(s, c), buffer, eof, max)
  {
    hide BodyRun, ChunkSizeOf, FindFrom;
    ChunkParts(buffer, s.pos, c);
    LineAt(buffer, s.pos, c.sizeLine);
    RunChunkLine(s, buffer, eof, max);
    var p1 := s.pos + |c.sizeLine| + 1;
    var s1 := s.(pos := p1, phase := BodyChunkData, body := s.body.(remaining := |c.data|));
    RunChunkData(s1, buffer, eof, max);
    var p2 := p1 + |c.data|;
    var s2 := s1.(pos := p2, phase := BodyChunkCrlf,
                  body := s1.body.(remaining := 0, buf := s.body.buf + c.data));
    LineAt(buffer, p2, c.endLine);
    RunChunkLine(s2, buffer, eof, max);
    assert s2.(pos := p2 + |c.endLine| + 1, phase := BodyChunkSize) == AfterChunk(s, c);
  }

  /** The last-chunk line and the trailers end the run. */
  lemma TailAccepted(s: ParserState, buffer: string, eof: bool, max: nat, m: ChunkedMessage)
    requires s.Valid(|buffer|) && s.phase == BodyChunkSize
    requires WellFormed(m) && m.chunks == [] && At(buffer, s.pos, Render(m))
    ensures BodyRun(s, buffer, eof, max) == ParseResult(Complete, s.(pos := s.pos + |Render(m)|, phase := Done))
  {
    hide BodyRun, ChunkSizeOf, FindFrom, At, RenderLines;
    var line, rest := m.lastLine + "\n", RenderLines(m.trailers, m.blank);
    AtSplit(buffer, s.pos, line, rest);
    LineAt(buffer, s.pos, m.lastLine);
    RunChunkLine(s, buffer, eof, max);
    TrailersAccepted(s.(pos := s.pos + |line|, phase := BodyChunkTrailers), buffer, eof, max, m.trailers, m.blank);
  }

  /** Every well-formed message that fits the budget is accepted, and nothing after it is read. */
  lemma {:induction false} ChunkedComplete(s: ParserState, buffer: string, eof: bool, max: nat, m: ChunkedMessage)
    requires s.Valid(|buffer|) && s.phase == BodyChunkSize
    requires WellFormed(m) && At(buffer, s.pos, Render(m))
    requires |s.body.buf| + |Data(m.chunks)| <= max
    ensures var r := BodyRun(s, buffer, eof, max);
            && r.status == Complete
            && r.state.pos == s.pos + |Render(m)|
            && r.state.body.buf == s.body.buf + Data(m.chunks)
            && r.state == s.(pos := r.state.pos, phase := Done, body := r.state.body)
            && r.state.body == s.body.(remaining := r.state.body.remaining, buf := r.state.body.buf)
    decreases |m.chunks|
  {
    hide BodyRun, ChunkSizeOf, FindFrom, RenderChunk, At, RenderLines;
    if m.chunks == [] {
      TailAccepted(s, buffer, eof, max, m);
    } else {
      var c, m' := m.chunks[0], m.(chunks := m.chunks[1..]);
      AtSplit(buffer, s.pos, RenderChunk(c), Render(m'));
      ChunkAccepted(s, buffer, eof, max, c);
      ChunkedComplete(AfterChunk(s, c), buffer, eof, max, m');
      assert s.body.buf + c.data + Data(m'.chunks) == s.body.buf + Data(m.chunks);
    }
  }

  // ---------------------------------------------------------------- soundness

  lemma {:induction false} TrailersSound(s: ParserState, buffer: string, eof: bool, max: nat)
    returns (trailers: seq<string>, blank: string)
    requires s.Valid(|buffer|) && s.phase == BodyChunkTrailers
    requires BodyRun(s, buffer, eof, max).status == Complete
    ensures var r := BodyRun(s, buffer, eof, max);
            && s.pos <= r.state.pos <= |buffer|
            && buffer[s.pos..r.state.pos] == RenderLines(trailers, blank)
            && r.state.body == s.body
    ensures forall i :: 0 <= i < |trailers| ==> IsLine(trailers[i]) && !IsBlank(trailers[i])
    ensures IsBlank(blank)
    decreases |buffer| - s.pos
  {
    hide BodyRun, ChunkSizeOf, FindFrom;
    RunChunkLine(s, buffer, eof, max);
    FoundLine(buffer, s.pos);
    var nl := FindFrom(buffer, '\n', s.pos);
    var line := buffer[s.pos..nl];
    if IsBlank(line) {
      trailers, blank := [], line;
    } else {
      var rest;
      rest, blank := TrailersSound(s.(pos := nl + 1), buffer, eof, max);
      trailers := [line] + rest;
      assert trailers[1..] == rest;
      var end := BodyRun(s, buffer, eof, max).state.pos;
      assert buffer[s.pos..end] == buffer[s.pos..nl + 1] + buffer[nl + 1..end];
    }
  }

  lemma ChunkFromParts(buffer: string, p0: nat, p1: nat, p2: nat, p3: nat, c: Chunk)
    requires p0 < p1 <= p2 < p3 <= |buffer|
    requires buffer[p0..p1] == c.sizeLine + "\n" && buffer[p1..p2] == c.data && buffer[p2..p3] == c.endLine + "\n"
    ensures RenderChunk(c) == buffer[p0..p3] && At(buffer, p0, RenderChunk(c)) && |RenderChunk(c)| == p3 - p0
  {
    assert buffer[p0..p3] == buffer[p0..p1] + buffer[p1..p2] + buffer[p2..p3];
    assert RenderChunk(c) == (c.sizeLine + "\n") + c.data + (c.endLine + "\n");
  }

  /** A completed run that starts in chunk data takes the data and the line after it. */
  lemma DataSound(s: ParserState, buffer: string, eof: bool, max: nat) returns (endLine: string)
    requires s.Valid(|buffer|) && s.phase == BodyChunkData
    requires BodyRun(s, buffer, eof, max).status == Complete
    ensures var p2 := s.pos + s.body.remaining;
            var p3 := p2 + |endLine| + 1;
            && p3 <= |buffer| && IsLine(endLine) && buffer[p2..p3] == endLine + "\n"
            && var t := s.(pos := p3, phase := BodyChunkSize,
                           body := s.body.(remaining := 0, buf := s.body.buf + buffer[s.pos..p2]));
               t.Valid(|buffer|) && BodyRun(s, buffer, eof, max) == BodyRun(t, buffer, eof, max)
  {
    hide BodyRun, ChunkSizeOf, FindFrom, IsBlank;
    RunChunkData(s, buffer, eof, max);
    var p2 := s.pos + s.body.remaining;
    var s2 := s.(pos := p2, phase := BodyChunkCrlf,
                 body := s.body.(remaining := 0, buf := s.body.buf + buffer[s.pos..p2]));
    RunChunkLine(s2, buffer, eof, max);
    FoundLine(buffer, p2);
    endLine := buffer[p2..FindFrom(buffer, '\n', p2)];
  }

  /** A completed run that starts on a chunk reads a well-formed chunk. */
  lemma ChunkSound(s: ParserState, buffer: string, eof: bool, max: nat, size: nat) returns (c: Chunk)
    requires s.Valid(|buffer|) && s.phase == BodyChunkSize
    requires BodyRun(s, buffer, eof, max).status == Complete
    requires ChunkSizeOf(buffer[s.pos..FindFrom(buffer, '\n', s.pos)]) == Some(size) && size > 0
    ensures WellFormedChunk(c) && At(buffer, s.pos, RenderChunk(c))
    ensures AfterChunk(s, c).Valid(|buffer|) && AfterChunk(s, c).pos > s.pos
    ensures BodyRun(s, buffer, eof, max) == BodyRun(AfterChunk(s, c), buffer, eof, max)
  {
    hide BodyRun, ChunkSizeOf, FindFrom, At, RenderChunk, IsBlank;
    RunChunkLine(s, buffer, eof, max);
    FoundLine(buffer, s.pos);
    var p1 := FindFrom(buffer, '\n', s.pos) + 1;
    var s1 := s.(pos := p1, phase := BodyChunkData, body := s.body.(remaining := size));
    var endLine := DataSound(s1, buffer, eof, max);
    var p2 := p1 + size;
    c := Chunk(buffer[s.pos..p1 - 1], buffer[p1..p2], endLine);
    ChunkFromParts(buffer, s.pos, p1, p2, p2 + |endLine| + 1, c);
  }

  /** A completed run that starts on the last-chunk line reads a well-formed tail. */
  lemma TailSound(s: ParserState, buffer: string, eof: bool, max: nat) returns (m: ChunkedMessage)
    requires s.Valid(|buffer|) && s.phase == BodyChunkSize
    requires BodyRun(s, buffer, eof, max).status == Complete
    requires ChunkSizeOf(buffer[s.pos..FindFrom(buffer, '\n', s.pos)]) == Some(0)
    ensures WellFormed(m) && At(buffer, s.pos, Render(m)) && m.chunks == []
    ensures var r := BodyRun(s, buffer, eof, max).state;
            r.pos == s.pos + |Render(m)| && r.body == s.body
  {
    hide BodyRun, ChunkSizeOf, FindFrom;
    RunChunkLine(s, buffer, eof, max);
    FoundLine(buffer, s.pos);
    var nl := FindFrom(buffer, '\n', s.pos);
    var line := buffer[s.pos..nl];
    var trailers, blank := TrailersSound(s.(pos := nl + 1, phase := BodyChunkTrailers), buffer, eof, max);
    m := ChunkedMessage([], line, trailers, blank);
    AtSplit(buffer, s.pos, line + "\n", RenderLines(trailers, blank));
  }

  /** Whatever the parser completes on is the rendering of a well-formed message. */
  lemma {:induction false} ChunkedSound(s: ParserState, buffer: string, eof: bool, max: nat) returns (m: ChunkedMessage)
    requires s.Valid(|buffer|) && s.phase == BodyChunkSize
    requires BodyRun(s, buffer, eof, max).status == Complete
    ensures WellFormed(m) && At(buffer, s.pos, Render(m))
    ensures var r := BodyRun(s, buffer, eof, max).state;
            r.pos == s.pos + |Render(m)| && r.body.buf == s.body.buf + Data(m.chunks)
    decreases |buffer| - s.pos
  {
    hide BodyRun, ChunkSizeOf, FindFrom, RenderChunk, RenderLines;
    RunChunkLine(s, buffer, eof, max);
    var size := ChunkSizeOf(buffer[s.pos..FindFrom(buffer, '\n', s.pos)]).value;
    if size == 0 {
      m := TailSound(s, buffer, eof, max);
      assert Data([]) == "";
    } else {
      var c := ChunkSound(s, buffer, eof, max, size);
      var m' := ChunkedSound(AfterChunk(s, c), buffer, eof, max);
      m := m'.(chunks := [c] + m'.chunks);
      assert m.chunks[1..] == m'.chunks && m.(chunks := m.chunks[1..]) == m';
      AtSplit(buffer, s.pos, RenderChunk(c), Render(m'));
      assert s.body.buf + c.data + Data(m'.chunks) == s.body.buf + Data(m.chunks);
    }
  }
}
