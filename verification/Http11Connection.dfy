/**
 The HTTP/1.1 exchange: gap-free sending over a transport that may write short,
 and the read loop that feeds the response parser.
 */
module Http11Connection {
  import opened Text
  import opened Transports
  import opened ResponseParsing
  import opened ParserSlicing
  import opened ParserBudget

  datatype Errc = WriteError | Timeout | MalformedResponse

  datatype IoResult = Ok | Err(error: Errc)

  datatype Response = Response(resp: HttpResponse, keepAlive: bool)

  datatype ExchangeResult = Success(value: Response) | Failure(error: Errc)

  /** A file as the kernel sees it: reading past its end yields nothing. */
  function FileRange(file: string, from: nat, to: nat): string {
    if from <= to <= |file| then file[from..to] else ""
  }

  /**
   The transport and the wait on the event loop, with every outcome the system may
   choose.  `wire` and `received` record the bytes that crossed in each direction, and
   `closed` that the transport had nothing more to read and asked for nothing; `wakeUps`
   bounds how often the loop wakes before the deadline.
   */
  class Channel {
    ghost var wire: string
    ghost var received: string
    ghost var closed: bool
    var incoming: string    // what the peer has yet to send before it closes or stalls
    var wakeUps: nat

    constructor (incoming: string, wakeUps: nat)
      ensures wire == "" && received == "" && !closed && this.incoming == incoming && this.wakeUps == wakeUps
    {
      wire, received, closed := "", "", false;
      this.incoming := incoming;
      this.wakeUps := wakeUps;
    }

    /** Some prefix of the data reaches the wire. */
    method Write(data: string) returns (n: nat, want: Hint)
      modifies this`wire
      ensures n <= |data| && wire == old(wire) + data[..n]
    {
      n :| 0 <= n <= |data|;
      want := *;
      wire := wire + data[..n];
    }

    /** `sendfile`: some prefix of the requested range reaches the wire. */
    method SendFile(file: string, offset: nat, count: nat) returns (n: nat, want: Hint)
      modifies this`wire
      ensures n <= count && (n > 0 ==> offset + n <= |file|)
      ensures wire == old(wire) + FileRange(file, offset, offset + n)
    {
      n :| 0 <= n <= count && (n > 0 ==> offset + n <= |file|);
      want := *;
      wire := wire + FileRange(file, offset, offset + n);
    }

    /** A short read, or nothing at the end of the file or on error. */
    method ReadAt(file: string, offset: nat, count: nat) returns (data: string)
      ensures |data| <= count
      ensures data != "" ==> offset + |data| <= |file| && data == FileRange(file, offset, offset + |data|)
    {
      var n :| 0 <= n <= count;
      data := if offset + n <= |file| then file[offset..offset + n] else "";
    }

    /** The next bytes of the peer's stream, as many as the system hands over. */
    method Read(count: nat) returns (data: string, want: Hint)
      modifies this`received, this`incoming, this`closed
      ensures |data| <= count && data + incoming == old(incoming)
      ensures received == old(received) + data
      ensures closed == (old(closed) || (data == "" && want != ReadReady && want != WriteReady))
    {
      var n :| 0 <= n <= count;
      data := if n <= |incoming| then incoming[..n] else incoming;
      incoming := incoming[|data|..];
      want := *;
      received := received + data;
      closed := closed || (data == "" && want != ReadReady && want != WriteReady);
    }

    /** Wait until ready; false at the deadline. */
    method WaitIo() returns (ready: bool)
      modifies this`wakeUps
      ensures ready ==> wakeUps < old(wakeUps)
      ensures wakeUps <= old(wakeUps)
    {
      ready := *;
      if wakeUps == 0 { return false; }
      wakeUps := wakeUps - 1;
    }
  }

  // ------------------------------------------------------------------- sending

  /** `sent` bytes of `data`, and no others, were added to the wire. */
  ghost predicate Sent(before: string, after: string, data: string, sent: nat) {
    sent <= |data| && after == before + data[..sent]
  }

  lemma SentMore(w0: string, w1: string, w2: string, data: string, off: nat, n: nat)
    requires Sent(w0, w1, data, off) && off + n <= |data| && w2 == w1 + data[off..off + n]
    ensures Sent(w0, w2, data, off + n)
  {
    assert data[..off] + data[off..off + n] == data[..off + n];
  }

  /**
   Head then body over short writes: the wire grows by exactly a prefix of
   head ++ body, by all of it on success, and `requestSent` says whether it grew.
   */
  method WriteAll(channel: Channel, head: string, body: string, sentBefore: bool)
    returns (result: IoResult, requestSent: bool, ghost count: nat)
    modifies channel`wire, channel`wakeUps
    ensures Sent(old(channel.wire), channel.wire, head + body, count)
    ensures result == Ok ==> count == |head + body|
    ensures requestSent == (sentBefore || count > 0)
  {
    var total := |head| + |body|;
    var off := 0;
    requestSent := sentBefore;
    count := 0;
    while off < total
      invariant off <= total && count == off
      invariant Sent(old(channel.wire), channel.wire, head + body, off)
      invariant requestSent == (sentBefore || off > 0)
      decreases total - off, channel.wakeUps
    {
      ghost var w1 := channel.wire;
      var n, want;
      if off < |head| {
        n, want := channel.Write(head[off..] + body);
        assert (head[off..] + body)[..n] == (head + body)[off..off + n];
      } else {
        n, want := channel.Write(body[off - |head|..]);
        assert body[off - |head|..][..n] == (head + body)[off..off + n];
      }
      SentMore(old(channel.wire), w1, channel.wire, head + body, off, n);
      off := off + n;
      count := off;
      if off != 0 { requestSent := true; }
      if off >= total { break; }
      if want == Failed { return Err(WriteError), requestSent, count; }
      var ready := channel.WaitIo();
      if !ready { return Err(Timeout), requestSent, count; }
    }
    return Ok, requestSent, count;
  }

  const FILE_CHUNK: nat := 65536

  /** Plain socket: the kernel sends the region. */
  method SendFileBody(channel: Channel, file: string, offset: nat, length: nat, sentBefore: bool)
    returns (result: IoResult, requestSent: bool, ghost count: nat)
    modifies channel`wire, channel`wakeUps
    ensures count <= length && (count > 0 ==> offset + count <= |file|)
    ensures channel.wire == old(channel.wire) + FileRange(file, offset, offset + count)
    ensures result == Ok ==> count == length
    ensures requestSent == (sentBefore || count > 0)
  {
    hide FileRange;
    var fileOffset: nat, remaining: nat := offset, length;
    requestSent := sentBefore;
    count := 0;
    EmptyRange(file, offset);
    while remaining != 0
      invariant fileOffset + remaining == offset + length && count == fileOffset - offset
      invariant fileOffset > offset ==> fileOffset <= |file|
      invariant channel.wire == old(channel.wire) + FileRange(file, offset, fileOffset)
      invariant requestSent == (sentBefore || count > 0)
      decreases remaining, channel.wakeUps
    {
      var n, want := channel.SendFile(file, fileOffset, remaining);
      RangeGrows(file, offset, fileOffset, fileOffset + n);
      if n != 0 {
        requestSent := true;
        remaining := remaining - n;
        fileOffset := fileOffset + n;
        count := count + n;
        continue;
      }
      if want == Failed { return Err(WriteError), requestSent, count; }
      var ready := channel.WaitIo();
      if !ready { return Err(Timeout), requestSent, count; }
    }
    return Ok, requestSent, count;
  }

  /** Read the next chunk of a file and write it out in full; nothing read is an error. */
  method StreamChunk(channel: Channel, file: string, from: nat, most: nat, sentBefore: bool)
    returns (result: IoResult, requestSent: bool, size: nat, ghost count: nat)
    modifies channel`wire, channel`wakeUps
    ensures count <= size <= most && (size > 0 ==> from + size <= |file|)
    ensures channel.wire == old(channel.wire) + FileRange(file, from, from + count)
    ensures result == Ok ==> count == size > 0
    ensures requestSent == (sentBefore || count > 0)
  {
    hide FileRange;
    var chunk := channel.ReadAt(file, from, most);
    if chunk == "" {
      EmptyRange(file, from);
      return Err(WriteError), sentBefore, 0, 0;
    }
    size := |chunk|;
    assert "" + chunk == chunk;
    result, requestSent, count := WriteAll(channel, "", chunk, sentBefore);
    RangePrefix(file, from, chunk, count);
  }

  /** TLS: bounded reads, each written out in full before the next. */
  method StreamFileBody(channel: Channel, file: string, offset: nat, length: nat, sentBefore: bool)
    returns (result: IoResult, requestSent: bool, ghost count: nat)
    modifies channel`wire, channel`wakeUps
    ensures count <= length && (count > 0 ==> offset + count <= |file|)
    ensures channel.wire == old(channel.wire) + FileRange(file, offset, offset + count)
    ensures result == Ok ==> count == length
    ensures requestSent == (sentBefore || count > 0)
  {
    hide FileRange;
    var fileOffset: nat, remaining: nat := offset, length;
    requestSent := sentBefore;
    count := 0;
    EmptyRange(file, offset);
    while remaining != 0
      invariant fileOffset + remaining == offset + length && count == fileOffset - offset
      invariant fileOffset > offset ==> fileOffset <= |file|
      invariant channel.wire == old(channel.wire) + FileRange(file, offset, fileOffset)
      invariant requestSent == (sentBefore || count > 0)
      decreases remaining
    {
      var toRead := if remaining < FILE_CHUNK then remaining else FILE_CHUNK;
      var size;
      ghost var n;
      result, requestSent, size, n := StreamChunk(channel, file, fileOffset, toRead, requestSent);
      RangeGrows(file, offset, fileOffset, fileOffset + n);
      count := count + n;
      if result != Ok { return; }
      fileOffset := fileOffset + size;
      remaining := remaining - size;
    }
    return Ok, requestSent, count;
  }

  /** The file region [offset, offset + length): a prefix of it, all of it on success. */
  method WriteFileBody(channel: Channel, file: string, offset: nat, length: nat, supportsSendfile: bool,
                       sentBefore: bool)
    returns (result: IoResult, requestSent: bool, ghost count: nat)
    modifies channel`wire, channel`wakeUps
    ensures count <= length && (count > 0 ==> offset + count <= |file|)
    ensures channel.wire == old(channel.wire) + FileRange(file, offset, offset + count)
    ensures result == Ok ==> count == length
    ensures requestSent == (sentBefore || count > 0)
  {
    if supportsSendfile {
      result, requestSent, count := SendFileBody(channel, file, offset, length, sentBefore);
    } else {
      result, requestSent, count := StreamFileBody(channel, file, offset, length, sentBefore);
    }
  }

  lemma EmptyRange(file: string, at: nat)
    ensures FileRange(file, at, at) == ""
  {
  }

  lemma RangePrefix(file: string, at: nat, chunk: string, n: nat)
    requires at + |chunk| <= |file| && chunk == FileRange(file, at, at + |chunk|) && n <= |chunk|
    ensures chunk[..n] == FileRange(file, at, at + n)
  {
  }

  lemma RangeGrows(file: string, from: nat, mid: nat, to: nat)
    requires from <= mid <= to && (mid > from ==> mid <= |file|) && (to > mid ==> to <= |file|)
    ensures FileRange(file, from, mid) + FileRange(file, mid, to) == FileRange(file, from, to)
  {
  }

  /** What follows the head of a request. */
  datatype Payload = InMemory(bytes: string) | FilePart(file: string, offset: nat, length: nat)

  /** The bytes of a request, as far as its file really holds them. */
  ghost function RequestBytes(head: string, payload: Payload): string {
    match payload
    case InMemory(bytes) => head + bytes
    case FilePart(file, offset, length) =>
      head + (if offset + length <= |file| then file[offset..offset + length]
              else if offset <= |file| then file[offset..] else "")
  }

  /** Head, then file region. */
  method SendFileRequest(channel: Channel, head: string, file: string, offset: nat, length: nat, supportsSendfile: bool)
    returns (result: IoResult, requestSent: bool, ghost count: nat)
    modifies channel`wire, channel`wakeUps
    ensures Sent(old(channel.wire), channel.wire, RequestBytes(head, FilePart(file, offset, length)), count)
    ensures result == Ok ==> count == |head| + length
    ensures requestSent <==> count > 0
  {
    hide RequestBytes, FileRange, Sent;
    ghost var before := channel.wire;
    result, requestSent, count := WriteAll(channel, head, "", false);
    SentHead(before, channel.wire, head, count);
    EmptyRange(file, offset);
    SentPart(before, channel.wire, head, file, offset, length, 0, count);
    if result != Ok { return; }
    ghost var more;
    result, requestSent, more := WriteFileBody(channel, file, offset, length, supportsSendfile, requestSent);
    SentPart(before, channel.wire, head, file, offset, length, more, count);
    count := count + more;
  }

  lemma SentHead(before: string, after: string, head: string, count: nat)
    requires Sent(before, after, head + "", count)
    ensures count <= |head| == |head + ""| && after == before + head[..count] + ""
  {
    assert head + "" == head;
  }

  /** Part of the head, or the head and part of the file region, were sent of the request. */
  lemma SentPart(before: string, after: string, head: string, file: string, offset: nat, length: nat, more: nat,
                 count: nat)
    requires more <= length && (more > 0 ==> offset + more <= |file| && count == |head|) && count <= |head|
    requires after == before + head[..count] + FileRange(file, offset, offset + more)
    ensures Sent(before, after, RequestBytes(head, FilePart(file, offset, length)), count + more)
  {
    hide RequestBytes, FileRange;
    RequestPrefix(head, file, offset, length, more, count);
    assert before + head[..count] + FileRange(file, offset, offset + more) ==
           before + (head[..count] + FileRange(file, offset, offset + more));
  }

  /** Send a whole request; the wire holds a prefix of it whatever goes wrong. */
  method SendRequest(channel: Channel, head: string, payload: Payload, supportsSendfile: bool)
    returns (result: IoResult, requestSent: bool, ghost count: nat)
    modifies channel`wire, channel`wakeUps
    ensures Sent(old(channel.wire), channel.wire, RequestBytes(head, payload), count)
    ensures result == Ok ==> count == |head| + match payload
                                              case InMemory(bytes) => |bytes|
                                              case FilePart(_, _, length) => length
    ensures requestSent <==> count > 0
  {
    match payload
    case InMemory(bytes) =>
      result, requestSent, count := WriteAll(channel, head, bytes, false);
    case FilePart(file, offset, length) =>
      result, requestSent, count := SendFileRequest(channel, head, file, offset, length, supportsSendfile);
  }

  /** A prefix of the head, or the head and a prefix of the file region, is a prefix of the request. */
  lemma RequestPrefix(head: string, file: string, offset: nat, length: nat, more: nat, count: nat)
    requires more <= length && (more > 0 ==> offset + more <= |file| && count == |head|) && count <= |head|
    ensures var all := RequestBytes(head, FilePart(file, offset, length));
            count + more <= |all| && all[..count + more] == head[..count] + FileRange(file, offset, offset + more)
  {
    var all := RequestBytes(head, FilePart(file, offset, length));
    if more == 0 {
      assert all[..count] == head[..count];
    } else {
      assert all[..|head| + more] == head + file[offset..offset + more];
    }
  }

  // ------------------------------------------------------------------ receiving

  /** Going on from `s` after `bytes` is as good as parsing afresh from `s0`, whatever comes. */
  ghost predicate Resumable(s: ParserState, s0: ParserState, bytes: string, max: nat, codec: Option<Codec>) {
    && s.Valid(|bytes|) && s0.Valid(0)
    && forall b, e :: IsPrefix(bytes, b) ==>
         Agree(ParseRun(s, b, e, max, codec), ParseRun(s0, b, e, max, codec))
  }

  lemma ResumableStart(s0: ParserState, max: nat, codec: Option<Codec>)
    requires s0.Valid(0)
    ensures Resumable(s0, s0, "", max, codec)
  {
    hide ParseRun;
  }

  lemma ResumableNow(s: ParserState, s0: ParserState, bytes: string, eof: bool, max: nat, codec: Option<Codec>)
    requires Resumable(s, s0, bytes, max, codec)
    ensures s.Valid(|bytes|) && s0.Valid(|bytes|)
    ensures Agree(ParseRun(s, bytes, eof, max, codec), ParseRun(s0, bytes, eof, max, codec))
  {
    hide ParseRun;
    assert IsPrefix(bytes, bytes);
  }

  lemma ResumableGrows(s: ParserState, s0: ParserState, a: string, b: string, max: nat, codec: Option<Codec>)
    requires Resumable(s, s0, a, max, codec) && IsPrefix(a, b)
    ensures Resumable(s, s0, b, max, codec)
  {
    hide ParseRun;
    forall c, e | IsPrefix(b, c) ensures Agree(ParseRun(s, c, e, max, codec), ParseRun(s0, c, e, max, codec)) {
      assert IsPrefix(a, c) by { assert c[..|a|] == c[..|b|][..|a|]; }
    }
  }

  lemma ResumableAfterCall(s: ParserState, s0: ParserState, a: string, max: nat, codec: Option<Codec>)
    requires Resumable(s, s0, a, max, codec)
    requires ParseRun(s, a, false, max, codec).status == NeedMore
    ensures Resumable(ParseRun(s, a, false, max, codec).state, s0, a, max, codec)
  {
    hide ParseRun;
    var t := ParseRun(s, a, false, max, codec).state;
    forall c, e | IsPrefix(a, c) ensures Agree(ParseRun(t, c, e, max, codec), ParseRun(s0, c, e, max, codec)) {
      ResumeEqualsRestart(s, a, c, e, max, codec);
    }
  }

  const READ_CHUNK: nat := 16384

  /** What an exchange returns when one parse of all its input ends as `r`. */
  function Verdict(r: ParseResult): ExchangeResult {
    if r.status == Complete then Success(Response(r.state.resp, r.state.body.keepAlive)) else Failure(MalformedResponse)
  }

  /**
   The read loop.  Whatever the transport delivers and however it slices it, the
   outcome -- unless the deadline passes first -- is that of one parse of everything
   received.
   */
  method ReadResponse(channel: Channel, headRequest: bool, codec: Option<Codec>, max: nat)
    returns (result: ExchangeResult, ghost eof: bool)
    requires channel.received == ""
    modifies channel`received, channel`incoming, channel`wakeUps, channel`closed
    ensures channel.received + channel.incoming == old(channel.incoming)
    ensures eof ==> channel.closed
    ensures result == Failure(Timeout) ||
            var r := ParseRun(Fresh(headRequest, EMPTY_RESPONSE), channel.received, eof, max, codec);
            r.status != NeedMore && result == Verdict(r)
  {
    hide ParseRun, Resumable;
    var parser := new ResponseParser(headRequest, codec);
    ghost var s0 := Fresh(headRequest, EMPTY_RESPONSE);
    var resp := EMPTY_RESPONSE;
    var buffer := "";
    var closed := false;
    eof := false;
    ResumableStart(s0, max, codec);
    while true
      invariant buffer == channel.received && parser.codec == codec && closed == eof && (eof ==> channel.closed)
      invariant channel.received + channel.incoming == old(channel.incoming)
      invariant fresh(parser)
      invariant Resumable(parser.State(resp), s0, buffer, max, codec)
      decreases |channel.incoming| , !closed, channel.wakeUps
    {
      ghost var s := parser.State(resp);
      ResumableNow(s, s0, buffer, eof, max, codec);
      var status;
      status, resp := parser.Parse(buffer, closed, resp, max);
      if status == Complete {
        return Success(Response(resp, parser.body.keepAlive)), eof;
      }
      if status == Error {
        return Failure(MalformedResponse), eof;
      }
      if closed {
        EofDecides(s, buffer, max, codec);
        assert false;
      }
      ResumableAfterCall(s, s0, buffer, max, codec);
      var data, want := channel.Read(READ_CHUNK);
      if data != "" {
        ResumableGrows(parser.State(resp), s0, buffer, buffer + data, max, codec);
        buffer := buffer + data;
        continue;
      }
      assert buffer + data == buffer;
      if want == ReadReady || want == WriteReady {
        var ready := channel.WaitIo();
        if !ready { return Failure(Timeout), eof; }
        continue;
      }
      closed := true;
      eof := true;
    }
  }
}
