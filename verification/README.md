# aeronet HTTP client: a verified model

This project models the synchronous HTTP client of aeronet and proves what its hard
parts promise, for every input, every way the network slices the bytes, and every run.
`dafny verify dfyconfig.toml` checks all of it.

| file | component |
|---|---|
| `Text.dfy` | byte searching, whitespace, `from_chars` / `to_chars` |
| `ResponseParser.dfy` | the resumable HTTP/1.x response parser: the machine and the class |
| `ParserSlicing.dfy`, `ParserHead.dfy`, `ParserChunked.dfy`, `ParserInterim.dfy`, `ParserBudget.dfy`, `ParserMessages.dfy`, `ParserSound.dfy`, `ParserConverse.dfy`, `ParserTexts.dfy` | what the parser does: slicing, heads, chunked bodies, interim responses, limits, round trips, rejection, the converse of the round trip, and all of it in letters and digits |
| `Transport.dfy`, `Http11Connection.dfy` | transport hints; gap-free sending and the read loop of an HTTP/1.1 exchange |
| `Http2Connection.dfy`, `Http2Frames.dfy`, `Http2Engine.dfy`, `Http2Texts.dfy` | flow control and stream states; what is heard of the peer's frames; the HTTP/2 client engine and its exchange; when it completes and what its header blocks say |
| `UrlParse.dfy`, `HttpRequest.dfy` | URLs and origin keys; the flat request buffer and its edits |
| `RetryConfig.dfy`, `RetryRuns.dfy`, `ClientExchanges.dfy`, `RedirectChains.dfy`, `HttpClient.dfy` | backoff; runs of attempts and redirects; one exchange over either protocol; which request went to which origin along a chain; pool, event-loop registration, retry and redirect loops |
| `ResponseCache.dfy` | the bounded response cache |
| `FileSend.dfy` | the server's file-send state machine |
| `LatencyHistogram.dfy` | the benchmark histogram |

Conventions. Bytes are Dafny characters. Each stateful component is a class whose methods
are proved equal to step functions, and the theorems are about those functions. The
network is a nondeterministic short writer and reader; waiting is bounded by a count that
stands for the deadline. Clocks are nondecreasing integers, doubles are reals, content
decoding is an arbitrary function.

Where the code and its documentation or the standards differ, the code is modelled:

- The parser checks a version by length and two digits only; the text `HTTP/` is not compared.
- After an interim (1xx) head its reason and fields stay in the response object; only the
  framing state is discarded (`ParserInterim.ReasonBehindInterim` gives the exact condition).
- A chunk's closing line is not checked to be empty, so any line ends a chunk.
- With a codec, a Content-Encoding field left behind by an interim head is applied to the final
  body (`ParserConverse.MessageBehindHeads`, `ParserConverse.EncodingLeftBehind`).
- A Location that holds `://` anywhere, say in its query, is taken for an absolute URL and
  mostly refused; a query-only redirect keeps the old query; a relative reference against a
  target that is not an absolute path keeps its first byte; a bare fragment leads to the
  directory; dot segments are not removed (`HttpRequests.QueryRedirect`,
  `HttpRequests.RelativeRedirect`, `HttpRequests.AbsolutePathRedirect`).
- A Location that is refused does not always end in the invalid-URL error: an absolute path that
  is no valid target, a host over 65535 bytes, or a redirect that would take the body of a
  request with trailers throws (`HttpRequests.HttpRequest.ResolveRedirect`,
  `HttpRequests.BlankInPath`, `RedirectChains.FollowRedirect`).
- A host may hold a line break, which spoils a later change of origin
  (`HttpRequests.HostLineEnds`, `HttpRequests.LineBreakHost`).
- A URL whose bracketed host itself starts with `[` does not survive printing and parsing
  (`UrlParse.UrlRoundTrip`).
- Backoff departs from its closed form for a shrinking multiplier with a base over the cap, and
  without jitter a negative multiplier escapes the documented lower clamp
  (`RetryConfigs.BackoffIsExponential`, `RetryConfigs.DelayNeverNegative`).
- A negative maxDelay passes validation; at minus one second or less it lifts the documented cap
  on Retry-After (`RetryConfigs.RetryAfterBounded`).
- A closed HTTP/2 stream is forgotten after sixteen more have closed; its id can then be opened
  again, by the peer or by headers sent on it (`Http2Connections.ForgottenStream`). The engine
  never does so, which is the order that `Http2Connections.EndedOnce` assumes and every engine keeps.
- Any SETTINGS frame opens an HTTP/2 connection, an acknowledgement alone too, although section 3.4
  of RFC 9113 asks the server for its settings first.
- An HTTP/2 response counts as complete without any header block
  (`Http2Engines.CompletedMeaning`, `Http2Engines.HeadlessResponse`).
- A file cut short while user-space TLS sends it makes the flush loop go round without end
  (`FileSend.ConnectionState.FlushRound`).
- A SETTINGS change that would make a send window negative kills the connection, although
  section 6.9.2 of RFC 9113 allows it, and closed streams still retained count too
  (`Http2Connections.SettingKills` gives the exact condition, `Http2Connections.ClosedStreamKills`
  an input); so windows are never negative here. The streams visited before the one that does not
  fit keep their moved window, which is why `Http2Connections.FlowControl` counts from each
  stream's own initial window and ties that to the announced one only while the connection lives.
- The histogram's error bound stops shortly above 2^63 (`LatencyHistograms.Accuracy`), and a
  percentile whose target rank rounds down to zero is zero whatever was recorded.

## Model

| member | source | states |
|---|---|---|
| `ResponseParsing.ResponseParser.Parse` | aeronet/client/src/response-parser.cpp:260-382 | one call of the in-place parser is one run of the specified machine: same status, fields and response |
| `ResponseParsing.ResponseParser.ParseBody` | aeronet/client/src/response-parser.cpp:147-258 | the body loops compute the body run of the machine |
| `ResponseParsing.ResponseParser.DecideFraming` | aeronet/client/src/response-parser.cpp:101-145 | framing and keep-alive are set as the framing decision says |
| `ResponseParsing.ResponseParser.Reset` | aeronet/client/src/response-parser.cpp:50-67 | reset gives exactly the fresh state |
| `ParserSlicing.ResumeEqualsRestart` | aeronet/client/src/response-parser.cpp:147-382 | a call that wanted more, resumed on any extension, agrees with starting over on it |
| `ParserSlicing.SlicingInvariance` | aeronet/client/src/response-parser.cpp:147-382 | every increasing chain of prefixes ends in the status, response, body, keep-alive flag and cursor of one parse of the whole |
| `ParserHead.HeadMeaning` | aeronet/client/src/response-parser.cpp:101-145 | any well-formed head, read as a whole list of fields, determines framing, keep-alive, content type and stored fields |
| `ParserHead.FieldsRead` | aeronet/client/src/response-parser.cpp:336-378 | reading fields line by line amounts to the reading of the list: last value wins, options accumulate |
| `ParserSound.OnlyWellFormedHeads` | aeronet/client/src/response-parser.cpp:286-378 | whatever the bytes, a parse that completes began with well-formed heads: interim ones, then a final one |
| `ParserSound.HasTokenMeaning` | aeronet/client/src/response-parser.cpp:28-46 | the Connection scan finds an option exactly when some item of the list names it |
| `ParserChunked.ChunkedComplete` | aeronet/client/src/response-parser.cpp:182-255 | every message of the chunked grammar within the budget is accepted with exactly its data, and nothing after it is read |
| `ParserChunked.ChunkedSound` | aeronet/client/src/response-parser.cpp:182-255 | every accepted chunked body is a message of the grammar with that data |
| `ParserInterim.InterimInvariance` | aeronet/client/src/response-parser.cpp:317-335 | any number of interim heads in front changes nothing but the budget: same verdict, framing, body, keep-alive, exactly when the interim bytes still fit, and an error otherwise |
| `ParserInterim.ReasonBehindInterim` | aeronet/client/src/response-parser.cpp:286-335 | behind any number of interim heads, for HEAD and other requests, the final reason phrase is the response's own exactly when it has one or they left none |
| `ParserConverse.CompletedIsMessage` | aeronet/client/src/response-parser.cpp:147-382 | the converse of the round trip, with a codec or without: every completed parse read interim heads and one message, consumed exactly those, and its status, reason, fields, body (decoded, one Content-Encoding line gone, where there was one to decode by) and keep-alive are what they say |
| `ParserConverse.MessageBehindHeads` | aeronet/client/src/response-parser.cpp:69-99 | the round trip in full: interim heads, a final head and a body of any framing, with a codec or without, parse to exactly the response they describe, or fail exactly when the first Content-Encoding of all the heads does not decode the body; what follows is left unread |
| `ParserConverse.EncodingLeftBehind` | aeronet/client/src/response-parser.cpp:317-335 | an encoding left by an interim head fails a message that alone completes |
| `ParserTexts.KindMeaning` | aeronet/client/src/response-parser.cpp:349-371 | a header is acted on exactly when its name spells, in letters of any case, Content-Type, Content-Length, Transfer-Encoding or Connection |
| `ParserTexts.TokenListed` | aeronet/client/src/response-parser.cpp:28-46 | a Connection option is found exactly when some comma-delimited item of the text, blanks around it apart, spells it |
| `ParserTexts.ChunkedListed` | aeronet/client/src/response-parser.cpp:21-26 | a Transfer-Encoding is chunked exactly when its last item spells "chunked" |
| `ParserTexts.SaidInText` | aeronet/client/src/response-parser.cpp:101-145 | framing, persistence, content type and stored fields of a head, read off the spelling of its lines |
| `ParserTexts.MessageInText` | aeronet/client/src/response-parser.cpp:260-382 | every message by its text, of any version, final status, lines and framing, parses to exactly what the text says and no further |
| `ParserTexts.SizedRoundTrip` | aeronet/client/src/response-parser.cpp:147-181 | every body behind "Content-Length" in any case and its length in decimal parses back to itself; "Connection: close" and "Connection: keep-alive" in any case decide persistence, and the version without them |
| `ParserTexts.SizedHeadText` | aeronet/client/src/response-parser.cpp:260-382 | that head, letter by letter |
| `ParserTexts.SizeLineInText` | aeronet/client/src/response-parser.cpp:190-206 | a chunk size in hexadecimal of either case, with zeros, blanks or an extension, reads as its number |
| `ParserTexts.VersionMeaning` | aeronet/client/src/response-parser.cpp:292-295 | which eight characters pass for a version |
| `ParserTexts.EncodingInText` | aeronet/client/src/response-parser.cpp:69-99 | the encoding a body is decoded by is the first Content-Encoding of all heads, and exactly the last such line is removed, the others kept in order |
| `Text.FromCharsMeaning` | aeronet/client/src/response-parser.cpp:354-360 | what is read as a number: its printed digits, zeros in front or not, up to the largest value |
| `ParserBudget.EofDecides` | aeronet/client/src/http11-connection.cpp:205-208 | with the peer closed, parsing never asks for more |
| `ParserBudget.RunWithinBudget` | aeronet/client/src/response-parser.cpp:147-181 | one call keeps body and head within their limits, and a wait for more bounds the buffer |
| `ParserBudget.FeedWithinBudget` | aeronet/client/src/response-parser.cpp:147-382 | the same over every sequence of calls of a fresh parser, however the stream is sliced |
| `ParserMessages.MessageRoundTrip` | aeronet/client/src/response-parser.cpp:69-99 | a rendered response of any framing parses back to its status, fields and body, leaving following bytes alone (`ParserConverse.MessageBehindHeads` has it with a codec) |
| `ParserMessages.ChunkedRoundTrip` | aeronet/client/src/response-parser.cpp:182-255 | any body cut into non-empty chunks in any way parses back to itself, consuming exactly the message |
| `ParserMessages.MakeChunkedResponse` | benchmarks/internal/response-parse_bench.cpp:27-41 | the printer's loop emits exactly the rendering of its body in chunks of the given size, for every size |
| `ParserMessages.PrinterRoundTrip` | benchmarks/internal/response-parse_bench.cpp:27-41 | parsing what the printer emits, for every body and chunk size, gives that many 'x' and consumes exactly the text |
| `ParserMessages.SizeLineRoundTrip` | aeronet/client/src/response-parser.cpp:182-210 | a printed hexadecimal chunk size reads back |
| `Http11Connection.WriteAll` | aeronet/client/src/http11-connection.cpp:29-60 | under any short writes the wire grows by a prefix of head and body, all of it on success; the sent flag says whether it grew |
| `Http11Connection.WriteFileBody` | aeronet/client/src/http11-connection.cpp:62-134 | the same for a file range, by sendfile or by reading and writing |
| `Http11Connection.SendRequest` | aeronet/client/src/http11-connection.cpp:136-190 | a whole request: a prefix whatever goes wrong, everything on success, sent flag exact |
| `Http11Connection.ReadResponse` | aeronet/client/src/http11-connection.cpp:190-235 | however the peer slices it, the result is that of one parse of everything received, or a timeout; the parse is told of an end only after the peer closed, and no byte received is lost |
| `FileSend.ConnectionState.TransportFile` | aeronet/http/src/connection-state.cpp:128-226 | each outcome keeps emitted, staged and remaining bytes as stated; a TLS read replaces what was staged and gets bytes exactly when the file still holds the next one |
| `FileSend.ConnectionState.AttachFilePayload` | aeronet/http/src/connection-state.cpp:379-393 | the whole range is remaining and the send is active exactly when it is not empty |
| `FileSend.ReadConservesIffDrained` | aeronet/http/src/connection-state.cpp:186-226 | a TLS read keeps every byte exactly when the staging buffer was drained |
| `FileSend.ConnectionState.FlushUserSpaceTlsBuffer` | aeronet/server/src/http-response-dispatch.cpp:348-391 | draining the staged bytes loses none, under any short writes |
| `FileSend.ConnectionState.FlushRound` | aeronet/server/src/http-response-dispatch.cpp:429-488 | a TLS round that goes on has advanced if and only if the file still held the next byte; on a file cut short it leaves everything as it was |
| `FileSend.ConnectionState.FlushFilePayload` | aeronet/server/src/http-response-dispatch.cpp:393-490 | for any number of rounds the loop reads into a drained buffer, so emitted, staged and remaining make up the original range; it ends by itself while the file keeps its size, and on a TLS send of a file cut short it never changes anything |
| `Http2Connections.FlowControl` | aeronet/http2/src/http2-connection.cpp:190-316 | over every interleaving of our frames and the peer's, streams forgotten and come back included: data sent on the connection, and on each stream since it was created, is exactly window granted less window left, and no window is negative; while the connection lives every stream counts from the initial window announced last |
| `Http2Connections.SettingKills` | aeronet/http2/src/http2-connection.cpp:719-731 | after every run, a new initial window ends the connection if and only if it is too large itself or some stream still held, closed ones included, has spent more than it allows or would overflow |
| `Http2Connections.ClosedStreamKills` | aeronet/http2/src/http2-connection.cpp:723-729 | a retained closed stream that had sent 60000 bytes and an initial window of 1000 |
| `Http2Connections.RunningMeans` | aeronet/http2/src/http2-connection.cpp:694-801 | a connection that is running has had a SETTINGS frame of the peer and never a GOAWAY |
| `Http2Connections.EndedOnce` | aeronet/http2/src/http2-connection.cpp:151-208 | when streams are used one after the other and none after its closed callback, END_STREAM goes out at most once per id, whatever the peer does and however many streams were pruned; and the account of the stream in use is exact from zero |
| `Http2Connections.ForgottenStream` | aeronet/http2/src/http2-connection.cpp:174-184 | the run of seventeen exchanges after which headers on stream 1 would end it a second time |
| `Http2Connections.CloseStep` | aeronet/http2/src/http2-connection.cpp:151-184 | closing and pruning: a stream disappears only after its closed callback, and at most sixteen closed ones are kept |
| `Http2Connections.SendDataMeaning` | aeronet/http2/src/http2-connection.cpp:271-316 | DATA is queued whole or not at all, exactly when it fits both windows and the stream can send |
| `Http2Connections.SendHeadersMeaning` | aeronet/http2/src/http2-connection.cpp:190-243 | HEADERS are queued only on a stream that is new or whose side is open, and end it when asked |
| `Http2Connections.SplitMeaning` | aeronet/http2/src/http2-connection.cpp:297-313 | splitting at the frame size keeps the payload and ends the stream once if asked |
| `Http2Connections.SplitShape` | aeronet/http2/src/http2-connection.cpp:304-311 | every piece fits the frame size and only the last carries END_STREAM |
| `Http2Connections.StepAccounted` | aeronet/http2/src/http2-stream.cpp:140-206 | every single step keeps windows in range and moves both accounts by exactly what was granted |
| `Http2Frames.SendingMovesOurSide` | aeronet/http2/src/http2-stream.cpp:20-97 | sending closes our side of a stream exactly with END_STREAM and leaves the peer's alone |
| `Http2Frames.ReceivingMovesTheirSide` | aeronet/http2/src/http2-stream.cpp:49-116 | receiving closes the peer's side exactly with END_STREAM and leaves ours alone |
| `Http2Frames.AllHeard` | aeronet/http2/src/http2-connection.cpp:467-680 | over any run the callbacks are exactly those the peer's frames call for, in order and with their content: a message frame the stream could take, a close, a reset, a GOAWAY |
| `Http2Frames.HeadersGoOutWhen` | aeronet/http2/src/http2-connection.cpp:190-243 | HEADERS go out exactly on a held stream that is open on our side, or on a new one within the peer's limit |
| `Http2Frames.ActiveExact` | aeronet/http2/src/http2-connection.cpp:151-184 | over every run the count that limits new streams is exactly the number of streams in flight |
| `Http2Frames.PhaseAfter` | aeronet/http2/src/http2-connection.cpp:467-842 | which frames end the connection, which open it and which refuse further streams, exactly |
| `Http2Frames.SettingsHeld` | aeronet/http2/src/http2-connection.cpp:700-755 | while a connection lives it goes by the peer's last settings, and by the defaults of section 6.5.2 of RFC 9113 before them (100 concurrent streams) |
| `Http2Frames.FrameKeepsDone` | aeronet/http2/src/http2-connection.cpp:467-680 | once the peer has ended a stream it stays so until it is reported closed, whatever frames follow |
| `Http2Engines.Http2ClientEngine.RunExchange` | aeronet/client/src/http2-connection.cpp:343-501 | one exchange uses the next stream id once, queues a prefix of the body, ends the stream once after the whole body (on headers, last data or trailers as the case is), reports exactly whether a byte was written, and leaves itself detached; a complete response is what the callbacks for the peer's frames of this very exchange assemble; after it the stream was reported closed or is no longer in flight, and a connection kept alive has nothing left to write |
| `Http2Engines.Http2ClientEngine.Upload` | aeronet/client/src/http2-connection.cpp:397-441 | the upload loop queues the body in order within the windows; END_STREAM exactly when all is out and no trailers follow |
| `Http2Engines.Http2ClientEngine.BeginExchange` | aeronet/client/src/http2-connection.cpp:110-122 | stream ids are 1, 3, 5, ... up to 2^31 - 1, within the stream budget, none after GOAWAY, each untouched before |
| `Http2Engines.Http2ClientEngine.ReusableMeans` | aeronet/client/src/http2-connection.cpp:157-165 | over the whole life of a reusable connection the peer has sent a SETTINGS frame and no GOAWAY, and the next exchange gets the next odd id, within the id space and the stream budget |
| `Http2Engines.Http2ClientEngine.SendWindow` | aeronet/client/src/http2-connection.cpp:148-155 | the smaller of the two windows; nothing exactly for an unknown stream or where a window is used up |
| `Http2Engines.Http2ClientEngine.FlushOutput` | aeronet/client/src/http2-connection.cpp:167-190 | pending bytes go out in order and none is lost; the sent flag is set exactly when something was written |
| `Http2Engines.Http2ClientEngine.HandleHeaders` | aeronet/client/src/http2-connection.cpp:248-291 | the callback does what the header step says |
| `Http2Engines.Http2ClientEngine.HandleData` | aeronet/client/src/http2-connection.cpp:293-309 | the callback does what the data step says |
| `Http2Engines.LateFramesIgnored` | aeronet/client/src/http2-connection.cpp:124-128 | frames of other streams, and any frame after detaching, change no response and no body |
| `Http2Engines.DeliverKeeps` | aeronet/client/src/http2-connection.cpp:242-246 | over any run of callbacks the first failure stands and the body stays within maxResponseBytes |
| `Http2Engines.BodyIsWhatArrived` | aeronet/client/src/http2-connection.cpp:293-309 | without failure the body is exactly the data of the stream, in order |
| `Http2Engines.CompleteMeansEnded` | aeronet/client/src/http2-connection.cpp:132-134 | a response counts as complete only after END_STREAM or a close on its stream |
| `Http2Engines.ResponseIsWhatArrived` | aeronet/client/src/http2-connection.cpp:248-309 | without failure the response is exactly what the callbacks spell out on the stream: status of the first final block, fields and content type of it and all later blocks, the data |
| `Http2Engines.CompletedMeaning` | aeronet/client/src/http2-connection.cpp:460-480 | a completed response is that, within the limit and ended by the peer; it carries a status exactly when a final header block arrived |
| `Http2Engines.HeadlessResponse` | aeronet/client/src/http2-connection.cpp:293-309 | a lone DATA frame completes an exchange without any status |
| `Http2Texts.StatusDigits` | aeronet/client/src/http2-connection.cpp:253-266 | three decimal digits of the first :status are that number, from 100 on; less is malformed |
| `Http2Texts.CompletedStatus` | aeronet/client/src/http2-connection.cpp:248-272 | a completed exchange has the number its first header block that is not interim says in digits, whatever came before, between and after |
| `Http2Texts.MalformedNeverCompletes` | aeronet/client/src/http2-connection.cpp:253-266 | an exchange whose first such block lacks a proper status never completes |
| `Http2Texts.CompletesWhen` | aeronet/client/src/http2-connection.cpp:242-341 | over any callbacks, an exchange completes exactly when none spoils it (reset, refusal, malformed head, too much data) and one ends it |
| `Http2Texts.ResponseFields` | aeronet/client/src/http2-connection.cpp:273-287 | the stored fields are those of head and trailers without pseudo fields, Content-Type and Content-Length in any case, in order; the content type is the last so named |
| `UrlParse.UrlRoundTrip` | aeronet/client/src/url-parse.hpp:30-108 | an accepted URL is recovered from origin key and target if and only if its host does not start with a bracket |
| `UrlParse.UrlMeaning` | aeronet/client/src/url-parse.hpp:30-108 | URLs by their text: scheme in any case, host with brackets or not, port or none (443 for https, 80 for http), target or none, fragment or none |
| `UrlParse.RefusedUrl` | aeronet/client/src/url-parse.hpp:38-87 | refused authorities: empty, with a user part, with brackets left open, empty or followed by no colon, or a port alone |
| `UrlParse.ParseUrlAccepts` | aeronet/client/src/url-parse.hpp:89-108 | what an accepted URL looks like: host, target and port |
| `UrlParse.BracketedHostFails` | aeronet/client/src/url-parse.hpp:45-62 | a concrete URL that does not come back |
| `UrlParse.OriginKeyInjective` | aeronet/client/src/http-request.cpp:127-133 | equal origin keys mean equal scheme, host and port |
| `HttpRequests.IsValidRequestTarget` | aeronet/client/src/http-request.cpp:41-73 | the scan accepts exactly the non-empty targets of printable bytes with well-formed escapes |
| `HttpRequests.LengthFormulas` | aeronet/client/src/http-request.cpp:99-185 | the size computations are exact for what is then written |
| `HttpRequests.RequestLinesInText` | aeronet/client/src/http-request.cpp:125-153 | the request line of every method, letter by letter |
| `HttpRequests.HostValueRoundTrip` | aeronet/client/src/http-request.cpp:125-185 | the Host value with scheme and target parses back to the URL; the exact condition on the host |
| `HttpRequests.FitsEveryMethod` | aeronet/client/src/http-request.cpp:75-97 | a target fits exactly when the header position fits its 24 bits whatever the method |
| `HttpRequests.EditIsSplice` | aeronet/client/src/http-request.cpp:277-331 | grow, move, copy and resize amount to replacing the old bytes by the new |
| `HttpRequests.AdjustMovesBoth` | aeronet/http/include/aeronet/http-message.hpp:860-864 | one wrapped addition on the packed word moves both offsets, negative differences included |
| `HttpRequests.HttpRequest.constructor` | aeronet/client/src/http-request.cpp:187-224 | the buffer is origin key, request line, Host and headers, of exactly the reserved size |
| `HttpRequests.HttpRequest.Create` | aeronet/client/src/http-request.cpp:187-224 | creation succeeds exactly for an accepted URL with a valid target that fits |
| `HttpRequests.HttpRequest.SetMethod` | aeronet/client/src/http-request.cpp:277-303 | the edited buffer and offsets are those of a request built afresh with the new method |
| `HttpRequests.HttpRequest.SetTarget` | aeronet/client/src/http-request.cpp:305-331 | the same for the target; a refused target changes nothing |
| `HttpRequests.HttpRequest.SetNewUrl` | aeronet/client/src/http-request.cpp:333-374 | the same for another origin, if and only if the old host hides no line break; what each refusal leaves |
| `HttpRequests.HttpRequest.ResolveRedirect` | aeronet/client/src/http-request.cpp:376-444 | following a Location leaves the buffer of a request built afresh for the resolved URL; which references are followed, refused and thrown at, exactly |
| `HttpRequests.HttpRequest.ApplyEdits` | aeronet/client/src/http-request.cpp:277-444 | any sequence of edits, refused targets included, equals rebuilding for the final request |
| `HttpRequests.EditsKeepTail` | aeronet/client/src/http-request.cpp:277-444 | whatever the edits, later header lines and body are kept byte for byte and the offsets find them |
| `HttpRequests.QueryRedirect` | aeronet/client/src/http-request.cpp:376-415 | a query-only reference replaces the query if and only if there was none and it holds no "://" |
| `HttpRequests.RelativeRedirect` | aeronet/client/src/http-request.cpp:376-425 | a relative path replaces the last segment if and only if the target is an absolute path and it holds no "://" |
| `HttpRequests.AbsolutePathRedirect` | aeronet/client/src/http-request.cpp:376-400 | an absolute path replaces the target if and only if it does not start with "//" and holds no "://" |
| `HttpRequests.NetworkPathRedirect` | aeronet/client/src/http-request.cpp:383-390 | where "//host:port/path" leads: same scheme, that host, that port or the default one; refused exactly for a bad port or a "://" in it |
| `HttpRequests.SeparatorMeansAbsolute` | aeronet/client/src/http-request.cpp:376-386 | a reference with "://" anywhere is refused if and only if it is no acceptable URL as a whole, so whenever anything but http or https stands before it |
| `HttpRequests.RedirectsThatDiffer` | aeronet/client/src/http-request.cpp:376-425 | concrete references that resolve otherwise |
| `HttpRequests.BlankInPath` | aeronet/client/src/http-request.cpp:395-399 | a blank in a relative reference is refused, in an absolute path it throws |
| `HttpRequests.HttpRequest.Views` | aeronet/client/include/aeronet/http-request.hpp:728-732 | pool key, head and inline body, cut out of the buffer by the stored offsets, are those of the request |
| `HttpRequests.HttpRequest.DropBody` | aeronet/http/src/http-message.cpp:905-922 | dropping the body leaves a request with the same method and URL, a tail of header lines and no body |
| `HttpRequests.HostLineEnds` | aeronet/client/src/http-request.cpp:333-360 | the end of the Host line is found if and only if the host hides no line break |
| `HttpRequests.LineBreakHost` | aeronet/client/src/url-parse.hpp:30-87 | a URL with such a host is accepted |
| `RetryConfigs.DelayFor` | aeronet/client/src/retry-config.cpp:13-25 | the loop computes the specified delay, never sleeping above the cap, and never negative with jitter or non-negative settings |
| `RetryConfigs.BackoffIsExponential` | aeronet/client/src/retry-config.cpp:14-19 | the early-exit loop is the capped power exactly when the base is under the cap or the product is not; always for a multiplier of at least one |
| `RetryConfigs.DelayMonotone` | aeronet/client/src/retry-config.cpp:13-25 | without jitter later delays are never shorter |
| `RetryConfigs.DelayNeverNegative` | aeronet/client/src/retry-config.cpp:13-25 | without jitter no delay is negative, for all retries, exactly when base and first product allow it |
| `RetryConfigs.ShrinkingBackoff` | aeronet/client/src/retry-config.cpp:14-19 | a concrete policy where loop and closed form differ |
| `RetryConfigs.NegativeDelay` | aeronet/client/src/retry-config.cpp:19-24 | a concrete policy with a negative delay |
| `RetryConfigs.ParseRetryAfter` | aeronet/client/src/http-client.cpp:87-98 | a delta-seconds value in milliseconds, for a cap that is not negative at most the cap and short of it by less than a second; minus one exactly for anything else |
| `RetryConfigs.RetryAfterBounded` | aeronet/client/src/http-client.cpp:95-96 | no header value sleeps beyond the cap if and only if the cap is above minus one second |
| `RetryConfigs.RetryAfterUncapped` | aeronet/client/src/http-client.cpp:95-96 | below that, a day passes as it stands |
| `RetryRuns.NoUnsafeResubmission` | aeronet/client/src/http-client.cpp:607-678 | in every whole run each attempt but the last put no byte on the wire, got a retry status, or was idempotent with opt-in |
| `RetryRuns.AtMostOnceSent` | aeronet/client/src/http-client.cpp:667-676 | with no retry statuses a request that may not be repeated puts bytes on the wire in at most one attempt |
| `RetryRuns.NeverTwice` | aeronet/http/include/aeronet/http-method.hpp:56-62 | with no retry statuses POST, PATCH and CONNECT go out in at most one attempt, whatever the opt-in |
| `RetryRuns.MayGoTwice` | aeronet/http/include/aeronet/http-method.hpp:59-62 | GET, HEAD, PUT, DELETE, OPTIONS and TRACE may go out twice with the opt-in: a run that does |
| `RetryRuns.WhyStopped` | aeronet/client/src/http-client.cpp:667-678 | a run stops only when the slots, one less than maxAttempts, are gone or another attempt would not be safe |
| `RetryRuns.ChainKeepsOrDrops` | aeronet/client/src/http-client.cpp:811-820 | along a redirect chain a request is the original while redirects preserve it, and a body-less GET from the first that does not |
| `RetryRuns.SubmittedOnce` | aeronet/client/src/http-client.cpp:791-829 | counted in bytes on the wire, retries and redirects together submit a non-idempotent request at most once, unless by 307, 308 or a retry status |
| `ClientExchanges.OverHttp11` | aeronet/client/src/http11-connection.cpp:136-235 | an HTTP/1.1 exchange puts a prefix of the request on the wire, all of it when answered; what the driver is told about sending is true; the reply's status, Location, Retry-After and persistence are what one complete parse of the bytes received says |
| `ClientExchanges.OverHttp2` | aeronet/client/src/http2-connection.cpp:343-501 | the same truth about an HTTP/2 exchange; the reply is what the peer's frames of this exchange spell out on its stream |
| `ClientExchanges.SaidInLetters` | aeronet/client/src/http11-connection.cpp:190-235 | if the received bytes are a response text of some code, the reply carries that code, its first Location and Retry-After lines, and persistence as the text says |
| `RedirectChains.TurnIntoGet` | aeronet/client/src/http-client.cpp:815-820 | method and body of the request object are those of a body-less GET to the same URL; without a body its header lines stay |
| `RedirectChains.FollowRedirect` | aeronet/client/src/http-client.cpp:811-824 | the request object becomes the next request of the chain: the resolved URL, method and body rewritten, everything else kept; or exactly why not |
| `RedirectChains.WireIsBuffer` | aeronet/client/src/http-client.cpp:791-829 | anywhere in a chain, the origin an answered HTTP/1.1 attempt went to and the bytes it put on the wire are exactly the buffer of the request and its outside payload |
| `RedirectChains.OneOriginPerConnection` | aeronet/client/src/http-client.cpp:432-461 | requests whose attempts went over connections to the same origin agree in scheme, host and port |
| `HttpClients.HttpClient.Exchange` | aeronet/client/src/http-client.cpp:618-637 | over either protocol the trip bears the result out: bytes sent, and an answer that is what was heard; over HTTP/2 the wire is exactly what this connection's engine added to its own; the engines of other connections are untouched |
| `HttpClients.HttpClient.ArmLoop` | aeronet/client/src/http-client.cpp:190-216 | success means the kernel watches exactly this descriptor with this interest, also on the path without a system call |
| `HttpClients.HttpClient.UnregisterIfCurrent` | aeronet/client/src/http-client.cpp:218-224 | the descriptor is no longer registered and the remembered one stays coherent |
| `HttpClients.HttpClient.DropConnection` | aeronet/client/src/http-client.cpp:226-231 | the socket is unregistered, then closed once |
| `HttpClients.HttpClient.DropIdleBucket` | aeronet/client/src/http-client.cpp:233-240 | every connection of the bucket is unregistered and closed; every other socket stays as it was |
| `HttpClients.HttpClient.ClearIdleConnections` | aeronet/client/src/http-client.cpp:242-247 | afterwards nothing is open or registered and every socket ever opened is closed |
| `HttpClients.HttpClient.ConnectNew` | aeronet/client/src/http-client.cpp:273-338 | at most one socket is opened; a failed tunnel leaves none |
| `HttpClients.HttpClient.AcquireConnection` | aeronet/client/src/http-client.cpp:432-461 | a reused connection is the freshest of its own bucket and not idle too long; otherwise the bucket is emptied |
| `HttpClients.HttpClient.ReleaseConnection` | aeronet/client/src/http-client.cpp:464-480 | the connection goes to the end of its origin's bucket, or is closed when that is full |
| `HttpClients.ExpiredBackMeansAll` | aeronet/client/src/http-client.cpp:436-441 | if the freshest connection idled too long, so did the whole bucket |
| `HttpClients.ExactlyOnePlace` | aeronet/client/src/http-client.cpp:432-480 | every socket ever opened is closed, or in exactly one slot of its own origin's bucket |
| `HttpClients.HttpClient.TryOnce` | aeronet/client/src/http-client.cpp:607-678 | one attempt leaves nothing in use, goes to its own origin with its own request, is truthful about the wire, hands on the reply that was heard, waits as backoff or an honoured Retry-After says and is judged by the policy; the pool grows only if configuration and answer keep alive; a free retry has used up a pooled connection |
| `HttpClients.HttpClient.PerformExchange` | aeronet/client/src/http-client.cpp:589-679 | terminates; its attempts are a whole run, truthful about the wire, each to the request's own origin, of the request's own bytes and with the reply that was heard, at most maxAttempts * (maxIdle + 1) of them, sleeping at most (maxAttempts - 1) * maxDelay where Retry-After is capped, and no connection is left in use; the result is the reply of the last attempt |
| `HttpClients.HttpClient.RequestUncached` | aeronet/client/src/http-client.cpp:791-829 | terminates; at most maxRedirects redirects, each request its predecessor at the URL that the Location heard resolves to, method and body rewritten; every attempt of every run went to the origin of its request's URL with its buffer; attempts and sleep bounded over the whole chain; each way of ending has its reason, and a reply is the one last heard |
| `ResponseCaches.ResponseCache.LookupFresh` | aeronet/client/src/http-client.cpp:751-768 | the new table is the specified one; the answer is what it holds, if fresh |
| `ResponseCaches.ResponseCache.StoreResponse` | aeronet/client/src/http-client.cpp:770-789 | the store performs the specified step, evicting an oldest entry if one must go |
| `ResponseCaches.ResponseCache.PruneExpired` | aeronet/client/src/http-client.cpp:739-749 | exactly the expired entries go |
| `ResponseCaches.LookupMeaning` | aeronet/client/src/http-client.cpp:739-789 | after any history a lookup returns the last response stored under the key, exactly when it is younger than the refresh period, in milliseconds, and was not evicted |
| `ResponseCaches.PruningInvisible` | aeronet/client/src/http-client.cpp:739-768 | states that agree on what is fresh answer every later run alike, evictions included |
| `ResponseCaches.StoreSeenFresh` | aeronet/client/src/http-client.cpp:783-788 | an entry is evicted exactly when more fresh keys than maxEntries would be held |
| `ResponseCaches.HistoryKept` | aeronet/client/src/http-client.cpp:770-789 | the size never exceeds maxEntries, and what is held is what was stored last |
| `LatencyHistograms.IndexMonotone` | benchmarks/scripted-clients/bench-client-harness.hpp:297-305 | larger samples never land in an earlier bucket |
| `LatencyHistograms.IndexOfValue` | benchmarks/scripted-clients/bench-client-harness.hpp:297-314 | every bucket's lower bound lies in that bucket |
| `LatencyHistograms.Accuracy` | benchmarks/scripted-clients/bench-client-harness.hpp:297-314 | the bound never exceeds the sample, and the error is at most a sixteenth exactly up to 31 * 2^62 / 15 |
| `LatencyHistograms.AccuracyFails` | benchmarks/scripted-clients/bench-client-harness.hpp:297-305 | the largest sample breaks the bound |
| `LatencyHistograms.LatencyHistogram.Record` | benchmarks/scripted-clients/bench-client-harness.hpp:254-261 | the histogram represents its samples and one more, counters wrapping at 64 bits |
| `LatencyHistograms.LatencyHistogram.Merge` | benchmarks/scripted-clients/bench-client-harness.hpp:263-272 | merging equals recording the concatenated samples, itself included |
| `LatencyHistograms.LatencyHistogram.PercentileNs` | benchmarks/scripted-clients/bench-client-harness.hpp:280-294 | for the largest rank k within that share of the samples, from 1 on, the bucket bound of the k-th smallest sample; zero for rank 0 |
| `LatencyHistograms.PercentileAccuracy` | benchmarks/scripted-clients/bench-client-harness.hpp:280-314 | that bound is within a sixteenth below a sample that is the k-th smallest |
| `LatencyHistograms.KthExists` | benchmarks/scripted-clients/bench-client-harness.hpp:280-294 | every rank has its sample |

## Left out

- TLS contexts, certificates, ALPN, sockets, DNS and event polling: only their outcomes appear, and those are arbitrary.
- Proxies: absolute-form request lines are not modelled, so the request edits are stated for direct requests; CONNECT tunnels appear as an extra step of connecting that may fail.
- Compression and decompression, telemetry, logging, configuration loading and validation beyond the bounds used.
- Header compression, frame encoding, receive windows, priorities and push in HTTP/2: a frame that breaks a rule kept there arrives as an error event; multi-entry SETTINGS are taken entry by entry.
- Cache key construction: keys are opaque strings; a redirect can rewrite the buffer a key is a view of, so the cache theorems speak of keys as passed.
- Exceptions on the client's paths other than those of a redirect, such as a failed allocation or a bad TLS configuration.
- The cut of over-long reason phrases, and signed `char` values above 127 in an HTTP/2 status.
- Http11Connection.SendRequest: requests with trailers are not modelled; over HTTP/1.1 they are sent from a re-serialized chunked copy.
- ClientExchanges.OverHttp11: for the same reason the text of a request with trailers is any non-empty one here.
- HttpRequests.HttpRequest.DropBody: which header lines go with the body is not modelled, only a bound on the length of what is left.
- RedirectChains.FollowRedirect: a request whose body offset would leave its 40 bits, or that leaves an origin whose host hides a line break, is followed no further here; the code goes on with a spoiled buffer.
- ParserBudget.RunWithinBudget: chunk-size lines, trailers and chunk ends are not charged to any budget in the code, so the buffer is bounded only in the head and for length and until-close bodies.
- ParserInterim.InterimInvariance: with a codec it is stated for interim heads that leave no Content-Encoding behind; `ParserConverse.MessageBehindHeads` covers the others.
- HttpRequests.HttpRequest.ResolveRedirect: after a refused relative reference the bytes of the buffer are not specified, as the code has already written some; and the body offset must stay within its 40 bits, as for the other edits, which the code only asserts.
- RetryConfigs.ParseRetryAfter: seconds whose milliseconds exceed 64 bits, possible only under a negative cap, overflow in the code and are not modelled as overflowing.
- FileSend.ConnectionState.FlushUserSpaceTlsBuffer: a transport that has failed is taken to stay failed, as the connection is then closed.
- Http2Engines.Http2ClientEngine.Upload: a wait is one of a bounded number, so liveness under an unbounded deadline is not stated.
- HttpClients.HttpClient.Exchange: which protocol a new connection speaks is arbitrary; what HTTP/2 frames say of the request head is left to the engine's header block, which is opaque.
