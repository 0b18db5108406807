# cogen's WSGI connection, path dispatcher and socket bookkeeping in Dafny

This project models the sequential core of cogen's WSGI server and of its
socket wrapper, and proves properties of that model.

- **`WSGIConnection`** (cogen/web/wsgi.py) is modelled as a class,
  `Connection.Connection`. Its fields are the ones `run` updates: the
  position in the client's input, the bytes written so far, `close_connection`,
  `started_response`, `status`, `outheaders`, `sent_headers`, `chunked_write`,
  the write buffer, `content_length`, `response_protocol`, the environ, and
  the header name a continuation line reuses.
  - The keep-alive loop of `run` is `Run`, one round at a time
    (`ServeRequest`).
  - A round reads the request line after at most four blank lines
    (`Request.ReadRequestLine`) and reads the head (`Head.ReceiveHead`). The
    head is split into the request line, unquoted around encoded slashes,
    the version negotiation, the header fold, `Authorization`, the
    keep-alive decision, the refusal of transfer codings, and the proxy's
    content length.
  - A request the head refuses (400, 505, 501, or 500 for a broken header
    block) is answered with `simple_response` and ends the connection.
  - Otherwise the application runs. It is a parameter that returns its
    calls (`start_response`, `write`, operations submitted through the
    proxy), the values it yields and any exception it raises, or a file
    wrapper. Its response is
    framed by `render_headers` and, on HTTP/1.1 without a length, by the
    chunked transfer coding.
  - The ghost predicates `Framed` and `Complete` state what the socket has
    received since the response started: the head, which is the status line
    and header list of `render_headers` (`HeadRendered`), then exactly the
    body pieces, framed when chunked, then the last chunk.
  - Each method that sends the head ties the new state to `render_headers`
    on the state before the call (`Committed`): it fails exactly when that
    rendering fails, and otherwise stores its headers, coding, close flag,
    length and head.
  - A reference decoder for the chunked coding (`Response.DecodeChunked`)
    reads such a body back.
- **`WSGIPathInfoDispatcher`** is `Dispatch.PathInfoDispatcher`. It sorts
  the mounts in place with an insertion sort over an array, and routes by
  the first prefix the path lies under.
- **The socket wrapper's timeout and blocking state, and `SendFile`'s
  progress counter** (cogen/core/sockets.py) are classes whose methods
  update the same fields as the source. The OS transfer is a parameter that
  moves some number of bytes.
- **`asbool` and the `bind_addr` setter** are in `Server`.

Python's string operations that the server uses (strip, lower/upper,
split, `hex(n)[2:]`, `str(n)`, `int()`) are in `Text`, over ASCII
`seq<char>`.

External inputs are parameters of the methods that need them:

- the client's input, as a sequence of lines;
- `urlparse`, `unquote` and `base64.decodestring`;
- the date string;
- the application;
- the scheduler running an operation;
- the OS `sendfile`;
- the text of a traceback.

## Model

| member | source | states |
|---|---|---|
| Text.TrimLeft | cogen/web/wsgi.py:276 | `lstrip` leaves no more than the input, and nothing that starts with whitespace |
| Text.TrimLeftSuffix | cogen/web/wsgi.py:276 | what `lstrip` leaves is a suffix of the input |
| Text.TrimRight | cogen/web/wsgi.py:276 | `rstrip` leaves a prefix of the input that does not end with whitespace |
| Text.TrimLeftRemovesSpaces | cogen/web/wsgi.py:276 | everything `lstrip` removes is whitespace |
| Text.TrimRightRemovesSpaces | cogen/web/wsgi.py:276 | everything `rstrip` removes is whitespace |
| Text.StripPadding | cogen/web/wsgi.py:348 | whitespace added around a string does not change what `strip` leaves |
| Text.StripUpper | cogen/web/wsgi.py:348 | upper-casing commutes with `strip` |
| Text.LowerUpper | cogen/web/wsgi.py:733 | lower-casing after upper-casing is plain lower-casing |
| Text.RStripChar | cogen/web/wsgi.py:127 | `rstrip(c)` leaves a prefix that does not end in `c`, and removes only `c`s |
| Text.SplitOnce | cogen/web/wsgi.py:347 | `split(c, 1)` fails exactly when `c` is absent; otherwise the first part has no `c` and the parts around `c` rebuild the input |
| Text.SplitOnceAt | cogen/web/wsgi.py:347 | splitting `a + c + b` with `c` not in `a` gives `(a, b)` |
| Text.SplitAll | cogen/web/wsgi.py:388 | `split(c)` gives at least one piece and no piece holds `c` |
| Text.SplitAllJoin | cogen/web/wsgi.py:388 | the pieces of `split(c)` joined with `c` give back the input |
| Text.Hex | cogen/web/wsgi.py:459 | `hex(n)[2:]` is a non-empty run of hexadecimal digits |
| Text.HexRoundTrip | cogen/web/wsgi.py:459 | the chunk-size digits read back as the size |
| Text.Decimal | cogen/web/wsgi.py:234 | `"%s" % n` is a non-empty run of decimal digits |
| Text.DecimalRoundTrip | cogen/web/wsgi.py:234 | the decimal digits read back as the number |
| Text.StripUnchanged | cogen/web/wsgi.py:276 | a string with no whitespace at either end is its own strip |
| Text.ParseIntNeedsDigits | cogen/web/wsgi.py:320-322 | Python 2's `int()`: blank text never reads, and a negative value needs a leading "-" |
| Text.ParseIntSigned | cogen/web/wsgi.py:320-322 | a sign, any whitespace, then digits read as the signed number, as Python 2 reads `int("- 5")` as -5 |
| Text.ParseIntReadsDecimal | cogen/web/wsgi.py:397 | `int()` reads back what `"%s" % n` writes |
| Dispatch.InsertLeft | cogen/web/wsgi.py:121-122 | one insertion step leaves the first `i + 1` mounts in descending tuple order and permutes the array |
| Dispatch.SortDescending | cogen/web/wsgi.py:121-122 | `sort(); reverse()` in place: the array ends in descending order of `(prefix, app)` and is a permutation of the original |
| Dispatch.Stripped | cogen/web/wsgi.py:127 | a stored prefix keeps its application, does not end in "/", and starts the given prefix |
| Dispatch.StripAll | cogen/web/wsgi.py:127 | the stored list strips every pair, position by position |
| Dispatch.PermutationKeepsStripped | cogen/web/wsgi.py:127 | any reordering of stripped mounts has no prefix ending in "/" |
| Dispatch.RouteFromIsFirstMatch | cogen/web/wsgi.py:131-142 | the lookup answers 404 exactly when no prefix matches; otherwise it picks the first matching mount and rewrites the environ for it |
| Dispatch.RewriteConserves | cogen/web/wsgi.py:133-137 | the new SCRIPT_NAME is the old one plus the prefix; SCRIPT_NAME + PATH_INFO still spells the old SCRIPT_NAME + path; PATH_INFO is empty or starts with "/"; only PATH_INFO may be added as a key |
| Dispatch.MatchesNested | cogen/web/wsgi.py:133 | two prefixes a path lies under are nested at a "/" boundary |
| Dispatch.SortedPutsExtensionsFirst | cogen/web/wsgi.py:120-122 | in descending order, a prefix extended by "/..." comes before the prefix |
| Dispatch.RouteIsLongestMatch | cogen/web/wsgi.py:120-136 | in descending order the first matching mount has the longest matching prefix |
| Dispatch.RouteRule | cogen/web/wsgi.py:129-142 | with sorted mounts: 404 exactly when nothing matches (an empty PATH_INFO counts as "/"), answered with status "404 Not Found", headers Content-Type text/plain and Content-Length 0, and body [""]; otherwise a longest matching prefix is chosen, SCRIPT_NAME grows by it, and SCRIPT_NAME + PATH_INFO equals the old SCRIPT_NAME + path |
| Dispatch.StoreAsWritten | cogen/web/wsgi.py:115-125 | as written: the caller's pairs are sorted in place on the raw prefixes, and only then stripped |
| Dispatch.AsWrittenShadowsLongerPrefix | cogen/web/wsgi.py:120-136 | with mounts "/a//" and "/a/-", the stored order sends "/a/-/x" to the shorter prefix "/a" although "/a/-" matches and is longer |
| Dispatch.PathInfoDispatcher.constructor | cogen/web/wsgi.py:115-125 | corrected (Findings row 2): the stored mounts are the stripped pairs, reordered, in descending order, with no trailing slash |
| Dispatch.PathInfoDispatcher.Call | cogen/web/wsgi.py:129-142 | the loop returns what `Route` specifies: the first matching mount with the rewritten environ, a KeyError for a missing key, or the 404 response with status "404 Not Found", headers Content-Type text/plain and Content-Length 0, and body [""] |
| Response.Keys | cogen/web/wsgi.py:181 | `hkeys` lower-cases every header name, position by position |
| Response.FirstIndex | cogen/web/wsgi.py:184 | `index` finds the first occurrence |
| Response.PlanFailsOnlyOnBadNumbers | cogen/web/wsgi.py:182-184 | render_headers raises exactly when the status code or the first Content-Length is not an integer |
| Response.PlanFraming | cogen/web/wsgi.py:183-201 | chunked exactly when the status is not 413, there is no Content-Length, the status may carry a body, and the protocol is HTTP/1.1. The connection closes exactly when it already closed, the status is 413, or such a body has no length on HTTP/1.0. A body-carrying response always has a length, chunks or closes. The length is the declared one |
| Response.AddedHeadersChoice | cogen/web/wsgi.py:198-215 | Transfer-Encoding is added exactly when chunking. `Connection: close` exactly for HTTP/1.1 closing without a Connection header. `Keep-Alive` exactly for other protocols staying open without one. Date and Server exactly when absent |
| Response.PlanAddedHeaders | cogen/web/wsgi.py:176-215 | the application's headers stay first, in order, followed by exactly the added ones |
| Response.AddedHeadersDateAndServe | cogen/web/wsgi.py:211-215 | after the additions the list names a Date and a Server header |
| Response.PlanAlwaysDatedAndServed | cogen/web/wsgi.py:180-215 | every rendered header list has a Date and a Server header |
| Response.FindCRLF | cogen/web/wsgi.py:217-227 | a position found holds CR LF (CRLFAt) and no CR LF starts before it; when no position is found, no CR LF starts anywhere in the input |
| Response.HeaderBlockRoundTrip | cogen/web/wsgi.py:219-227 | the `k: v` lines followed by the empty line read back as the headers, provided each is well formed |
| Response.HeadRoundTrip | cogen/web/wsgi.py:217-228 | the rendered head reads back as the status line and the very headers in order |
| Response.SimpleResponseIsHead | cogen/web/wsgi.py:230-245 | simple_response's buffer is the head of its own headers (Content-Length, Content-Type, Connection: close on 413 over HTTP/1.1), then the message |
| Response.SimpleResponseIsWellFramed | cogen/web/wsgi.py:230-245 | a simple response is a readable head followed by the message, and its Content-Length reads back as the message length |
| Response.DecodeOneChunk | cogen/web/wsgi.py:459 | a non-empty chunk's frame decodes to the chunk, then decoding continues |
| Response.DecodeLastChunk | cogen/web/wsgi.py:505 | `0\r\n\r\n` alone decodes to the empty body |
| Response.DecodeFramed | cogen/web/wsgi.py:451-459 | a frame in front of a decodable stream adds its chunk, empty chunks included, since they are never framed |
| Response.ChunkedRoundTrip | cogen/web/wsgi.py:450-470 | whatever the application yields, the framed values followed by the last chunk decode to their concatenation |
| Response.FileSizeLineAsWritten | cogen/web/wsgi.py:433 | as written: the file's size line keeps Python's "0x" prefix |
| Response.FileChunkAsWrittenUndecodable | cogen/web/wsgi.py:431-443 | a chunked body framed with that size line cannot be decoded |
| Response.FileChunkPayloads | cogen/web/wsgi.py:431-443 | corrected framing of the file's bytes (rows under Findings) |
| Response.FileChunkRoundTrip | cogen/web/wsgi.py:431-443 | the corrected file framing is a chunk frame and decodes to the file's bytes |
| Request.Blanks | cogen/web/wsgi.py:268-273 | counts the CR LF lines ahead: all counted lines are blank and the next is not |
| Request.BlanksSkip | cogen/web/wsgi.py:271-273 | blank lines already read can be counted off the front |
| Request.ReadRequestLine | cogen/web/wsgi.py:267-275 | the loop reads a request line exactly when at most four blank lines precede it; the line is the first non-blank one; the input position is past it, or past six lines when the connection is given up |
| Request.SplitRequestLineParts | cogen/web/wsgi.py:276 | the method and URI have no space, and the stripped line is method, space, URI, space, protocol; the split fails exactly when fewer than two spaces remain |
| Request.RequestLineRoundTrip | cogen/web/wsgi.py:276 | a request line as a client writes it reads back into its three parts |
| Request.SplitQuotedSlash | cogen/web/wsgi.py:300 | `quoted_slash.split` gives at least one piece, the first starts the path, and no piece holds an encoded slash |
| Request.Unquoted | cogen/web/wsgi.py:300 | every piece is unquoted, position by position |
| Request.QuotedSlashSplitJoin | cogen/web/wsgi.py:300-301 | joining the pieces with "%2F" gives back the path, up to the case of `%2F`: no encoded slash is lost or decoded |
| Request.UnquotePathKeepsSlashes | cogen/web/wsgi.py:300-302 | with an identity unquote the path is unchanged (up to `%2F` case); a path without encoded slashes is simply unquoted |
| Request.ParseIntOneChar | cogen/web/wsgi.py:320-322 | `int(c)` of one character is its digit value, and fails otherwise |
| Request.VersionOf | cogen/web/wsgi.py:320-322 | a version reads exactly when the name has at least 8 characters with digits at positions 5 and 7, and it is those two digits' values |
| Request.VersionRoundTrip | cogen/web/wsgi.py:322-328 | the protocol name the server writes reads back as its version |
| Request.NegotiateRule | cogen/web/wsgi.py:320-328 | unreadable versions exactly when either side fails to read. 505 exactly when the major numbers differ. Otherwise the majors agree and the response protocol is the same major with the smaller minor |
| Request.EnvName | cogen/web/wsgi.py:349 | the key is "HTTP_" followed by the name, character for character, with each "-" turned into "_" |
| Request.FoldHeaders | cogen/web/wsgi.py:335-362 | the header loop ends as FoldFrom specifies: at the empty line with the folded environ, 400, or 500 |
| Request.FoldLine | cogen/web/wsgi.py:337-355 | one pass of the loop: the fold ends here, or it goes on from the next line with the updated environ and last header |
| Request.FoldKeepsOthers | cogen/web/wsgi.py:335-356 | folding changes only `HTTP_` keys |
| Request.FoldHeaderLine | cogen/web/wsgi.py:347-355 | one header line stores its stripped value under `HTTP_` + the upper-cased name |
| Request.RepeatedHeader | cogen/web/wsgi.py:351-355 | a header given twice is joined with ", " when it is in the comma-separated list and overwritten otherwise |
| Request.StoreTwice | cogen/web/wsgi.py:351-355 | storing twice joins or overwrites according to the list |
| Request.ContinuationLine | cogen/web/wsgi.py:343-355 | a continuation line's stripped text joins or replaces the last header's value |
| Request.FoldErrors | cogen/web/wsgi.py:337-365 | the end of the input is a 500; a line without ':' is a 400; a continuation line before any header is a 500 |
| Request.MoveContentHeadersEntries | cogen/web/wsgi.py:357-362 | HTTP_CONTENT_TYPE and HTTP_CONTENT_LENGTH are removed and, when non-empty, move to CONTENT_TYPE and CONTENT_LENGTH; every other entry stays |
| Request.AuthorizeBasic | cogen/web/wsgi.py:367-371 | Basic credentials set AUTH_TYPE to the scheme and REMOTE_USER to the user name before the first ':' |
| Request.AuthorizeOther | cogen/web/wsgi.py:367-369 | any other scheme only sets AUTH_TYPE |
| Request.PersistenceDefaults | cogen/web/wsgi.py:373-380 | without a Connection header only HTTP/1.1 persists; `close` always closes; `keep-alive`, in any case, keeps it open |
| Request.StripEmpty | cogen/web/wsgi.py:388 | a string strips to nothing exactly when it is all whitespace |
| Request.CodingsOfEmpty | cogen/web/wsgi.py:388 | no coding is named exactly when every piece is blank |
| Request.SplitAllBlank | cogen/web/wsgi.py:388 | the pieces of `split(",")` are all blank exactly when the value holds only commas and whitespace |
| Request.CodingsPresent | cogen/web/wsgi.py:384-391 | a Transfer-Encoding value names codings, and so is refused with 501, exactly when it holds more than commas and whitespace |
| Request.ProxyLength | cogen/web/wsgi.py:397 | `int(CONTENT_LENGTH or 0) or None`: no length for an empty value, and never a length of 0 |
| Request.ProxyLengthReadsDecimal | cogen/web/wsgi.py:397 | a length the client wrote in decimal reaches the proxy, and 0 becomes None |
| Head.LineEntriesValues | cogen/web/wsgi.py:277-306 | the request line sets REQUEST_METHOD, an empty CONTENT_LENGTH, SCRIPT_NAME "", the unquoted PATH_INFO, QUERY_STRING, and `wsgi.url_scheme` to the URI's scheme when it has one; without one the URL scheme entry is left as it was |
| Head.RequestEnvironOutcome | cogen/web/wsgi.py:280-328 | a fragment is refused with 400, unreadable versions are a 500, differing major versions a 505, and otherwise the request goes on with the negotiated protocol |
| Head.RequestEnvironEntries | cogen/web/wsgi.py:320-332 | going on, SERVER_PROTOCOL is the request's protocol, and SERVER_NAME is the URI's location when there is one |
| Head.ReceiveHead | cogen/web/wsgi.py:276-397 | the steps of `run` read the head as ReadHead specifies |
| Head.ReceiveHeaders | cogen/web/wsgi.py:335-397 | the header loop and what follows it compute HeadFrom |
| Head.ReadRequest | cogen/web/wsgi.py:276-397 | a head that is read ends after its request line and inside the input, and keeps a connection that was to close closing |
| Head.AfterHeadersKeepsClose | cogen/web/wsgi.py:373-380 | once the connection is to close it stays so |
| Head.HeadFromAdvances | cogen/web/wsgi.py:335-341 | the head ends after the header lines it starts at |
| Head.HeadAfterLineAdvances | cogen/web/wsgi.py:276-341 | the head ends after the request line |
| Head.ReadHeadAdvances | cogen/web/wsgi.py:267-341 | a head read from line `at` ends after `at`, on a line of the input, and keeps the close flag |
| Head.FoldEndsInside | cogen/web/wsgi.py:337-341 | the empty line that ends the headers is a line of the input |
| Connection.ResumeRecoversOutcome | cogen/web/wsgi.py:480-488 | the result and exception the bridge stores give back exactly how the operation ended |
| Connection.Proxy.constructor | cogen/web/wsgi.py:396-402 | the proxy starts with the request's length, nothing read, no operation, result or exception |
| Connection.Proxy.Submit | cogen/web/wsgi.py:404-413 | a wrapper leaves its operation pending and changes nothing else |
| Connection.Proxy.Bridge | cogen/web/wsgi.py:477-489 | a pending operation is cleared and run, and its value or exception is stored; without one nothing changes |
| Connection.RenderedReadsBack | cogen/web/wsgi.py:180-228 | a rendered head reads back as the server's protocol and status, with the application's headers first and a Date and a Server header |
| Connection.BufferBytesAsWritten | cogen/web/wsgi.py:427 | as written: the write buffer follows the head raw, even in a chunked body |
| Connection.BufferAsWrittenUndecodable | cogen/web/wsgi.py:425-462 | a chunked body whose raw buffer does not start with a hexadecimal digit cannot be decoded |
| Connection.BufferFramedDecodes | cogen/web/wsgi.py:453-470 | with the buffer framed, the chunked body decodes to the buffer and the values yielded after it |
| Connection.FileBytes | cogen/web/wsgi.py:431-443 | corrected (Findings row 1): the file's bytes go out as any body piece: as one chunk frame when chunked, raw otherwise |
| Connection.Transferred | cogen/web/wsgi.py:434-440 | `self.conn.sendfile(...)` read as a `SendFile(file, conn, offset, length, blocksize)` operation with the wrapper's block size completes with a prefix of the file's remaining bytes: exactly the response's length when there is one; otherwise all of them, or none when the block size is 0. A negative length fails its bound check, and a length beyond the end of the file times out (with the server's default `sendfile_timeout` of -1, no timeout, wsgi.py:577 and 780-782, the source's connection hangs there instead; the model ends it) |
| Connection.TransferredIsDriven | cogen/web/wsgi.py:434-440 | Transferred agrees with repeating `SendFile.run` until it completes: it succeeds exactly when `run` completes, with the byte count `run` reaches |
| Connection.StalledBytes | cogen/core/sockets.py:278-303 | a transfer that stalls has sent the whole rest of the file, framed, but without the CR LF that closes the chunk |
| Connection.Connection.constructor | cogen/web/wsgi.py:155-159 | a connection starts at the first line with nothing sent, not closing, and no header named |
| Connection.Connection.BeginRequest | cogen/web/wsgi.py:256-262 | each round resets the response state, and the new response starts at the current end of the output |
| Connection.Connection.ResetEnviron | cogen/web/wsgi.py:264-265 | the environ is the connection's entries updated with the server's |
| Connection.Connection.StartResponse | cogen/web/wsgi.py:163-178 | the first call records the status and appends exactly the given headers. A second call changes nothing and raises AssertionError, or re-raises the given exception |
| Connection.Connection.Write | cogen/web/wsgi.py:178 | the write callable appends to the buffer |
| Connection.Connection.SimpleResponse | cogen/web/wsgi.py:230-245 | the simple response's bytes are sent and a 413 on HTTP/1.1 closes the connection; a missing ACTUAL_SERVER_PROTOCOL raises KeyError |
| Connection.Connection.Render | cogen/web/wsgi.py:180-228 | render_headers on the current state; a closing connection stays closing, and a chunked body keeps the length it had |
| Connection.Connection.Commit | cogen/web/wsgi.py:425-427 | corrected (Findings row 4): the headers count as sent even when rendering fails. On success the plan's headers and flags are stored and the head and buffer are written |
| Connection.Connection.SendHead | cogen/web/wsgi.py:425-427 | corrected (Findings row 4): the headers count as sent. It fails exactly when render_headers on the state before the call fails, with its ValueError or KeyError, and then sends nothing. Otherwise the state holds that rendering's headers, coding, close flag, length and head, and the head and the buffer go out right where the response starts |
| Connection.Connection.SendPiece | cogen/web/wsgi.py:458-470 | one more body piece goes out as BodyBytes, and the output stays framed |
| Connection.Connection.SendChunk | cogen/web/wsgi.py:450-470 | corrected (Findings row 4): a non-empty value needs start_response (AssertionError otherwise, changing nothing). After the head it goes out framed when chunked. When the head is still due, it fails exactly as render_headers on the prior state fails; otherwise that rendering is stored and the head, the buffer and the value go out. The output stays framed |
| Connection.Connection.HeadThenChunk | cogen/web/wsgi.py:453-462 | the first value of a started response: the rendering of the prior state decides failure and the stored head; on success the head, the buffer and the value go out |
| Connection.Connection.Pause | cogen/web/wsgi.py:471-489 | corrected (Findings row 4): an empty value sends the head if it is due, failing exactly as render_headers on the prior state fails and otherwise storing that rendering; then the pending operation runs through the bridge and its outcome is delivered. Nothing changes when the head is not due |
| Connection.Connection.OpenHead | cogen/web/wsgi.py:473-476 | the head when it is due, tied to render_headers on the prior state as in SendHead; nothing otherwise |
| Connection.Connection.Perform | cogen/web/wsgi.py:163-178 | what each call of the application changes: start_response, write, or a submitted operation |
| Connection.Connection.SendFile | cogen/web/wsgi.py:417-443 | corrected (Findings rows 1 and 4): the file wrapper needs start_response and unsent headers, each failing with its AssertionError and changing nothing. A failing render_headers on the prior state is the fault; otherwise that rendering is stored, and the head and buffer, then the transferred file bytes (with the wrapper's block size), go out framed. A length beyond the file times out once the rest of the file has gone out, a chunk then lacking its closing CR LF |
| Connection.Connection.HeadThenFile | cogen/web/wsgi.py:425-443 | the head, tied to render_headers on the prior state, then the transfer; a failed rendering is the fault |
| Connection.Connection.SendRest | cogen/web/wsgi.py:433-440 | corrected (Findings row 1): the transfer fails exactly as Transferred fails, with its fault; otherwise the moved bytes become one more framed body piece, and a stalled transfer leaves the rest of the file on the wire |
| Connection.Connection.Stall | cogen/web/wsgi.py:433-440 | the bytes of a stalled transfer are appended after the framed head and buffer |
| Connection.Connection.Finish | cogen/web/wsgi.py:494-505 | corrected (Findings row 4): the head goes out if still due, failing exactly as render_headers on the prior state fails and otherwise storing that rendering; a chunked body ends with the last chunk, so the response is complete. The headers count as sent exactly when they were or the response started, and a response never started sends nothing and keeps its body |
| Connection.Connection.HeadThenClose | cogen/web/wsgi.py:494-505 | a head still due, tied to render_headers on the prior state, then the buffer and the last chunk: the response is complete |
| Connection.Connection.Respond | cogen/web/wsgi.py:414-505 | the application's response leaves the connection complete and only appends to the output. For an iterable, the body pieces after the buffer are exactly its non-empty yielded values, and nothing is sent when start_response was never called; for a file wrapper, the body is the buffer and then the file's bytes cut to the length (none without a length when the wrapper's block size is 0). An application that raises ends it with a fault |
| Connection.Connection.RespondFile | cogen/web/wsgi.py:417-443 | the file-wrapper branch: the calls, then the head; the body is exactly the buffer and the file's remaining bytes cut to the declared length, as Transferred moves them with the wrapper's block size |
| Connection.Connection.RespondSteps | cogen/web/wsgi.py:449-489 | the body loop keeps the output framed. Once the headers are sent, the body pieces after the buffer are exactly the non-empty values yielded; before start_response no value may be non-empty and nothing is sent. An exception the application raises ends it with a fault |
| Connection.Connection.TakeStep | cogen/web/wsgi.py:449-489 | one turn of the body loop: a non-empty value becomes the next body piece, an empty one none; a raised exception is its fault; a response not started sends nothing |
| Connection.Connection.TakeYield | cogen/web/wsgi.py:450-489 | a yielded value: when non-empty it becomes the next body piece, when empty none; a response not started sends nothing |
| Connection.NonEmptyYieldsStep | cogen/web/wsgi.py:450-456 | the values sent after one more turn are those before it and the turn's value when it is non-empty |
| Connection.Connection.ServeRequest | cogen/web/wsgi.py:255-507 | another round follows only after input was consumed, the connection is not closing and the response is complete; otherwise the round says why the connection ends (no request exactly when more than four blank lines come first, a refused head and its answer, a failure and its 500, or closing). A closing connection never goes on, and the output only grows |
| Connection.Connection.Round | cogen/web/wsgi.py:267-507 | the same, for a round whose head has been read or found missing |
| Connection.Connection.RefuseRound | cogen/web/wsgi.py:282-395 | a refused head ends the connection, and the output ends with the simple response of its status and message, or the 500 with the traceback |
| Connection.Connection.AnswerRound | cogen/web/wsgi.py:396-530 | an answered head moves the input to the head's end; the connection goes on only when the response completed and does not close it, otherwise it ends as failed (with the 500 when start_response was never called) or as closed and complete |
| Connection.Connection.ReadNext | cogen/web/wsgi.py:267-402 | no request is read exactly when more than four blank lines come first; a head that is read ends after its request line |
| Connection.Connection.Refuse | cogen/web/wsgi.py:282-395 | a refused request is answered with the simple response of its status and message (400 with the fragment or unpacking message, 505, 501), or a 500 carrying the traceback; 501 also closes the connection |
| Connection.Connection.Answer | cogen/web/wsgi.py:396-530 | the head's environ and protocol become the connection's and its response is the application's: for an iterable the body pieces are the non-empty values yielded, for a file wrapper the buffer and the file. A fault before start_response appends exactly the 500 simple response with the traceback; without a fault the response is complete and a closing head closes the connection; an application that raises always faults |
| Connection.Connection.Adopt | cogen/web/wsgi.py:327-380 | the head's environ, response protocol, close flag and last header become the connection's |
| Connection.Connection.Run | cogen/web/wsgi.py:250-507 | the keep-alive loop only appends to the output and only moves forward in the input, and says why it stopped: no request (more than four blank lines), a refused head whose answer ends the output, a failure whose 500 ends the output when nothing had been started, or a connection closing after a complete response |
| Connection.CompletedBodyDecodes | cogen/web/wsgi.py:450-505 | corrected (Findings rows 1 and 4): after a complete chunked response, what follows its head is the framed body pieces and the last chunk, and that decodes to the body pieces sent, in order |
| Connection.CompletedBodyPlain | cogen/web/wsgi.py:466-470 | after a complete unchunked response, what follows its head is the body pieces |
| Sockets.Defaults.constructor | cogen/core/sockets.py:37 | the module default timeout starts as None |
| Sockets.Defaults.SetDefaultTimeoutAsWritten | cogen/core/sockets.py:42-45 | as written: the module default does not change |
| Sockets.Defaults.SetDefaultTimeout | cogen/core/sockets.py:42-45 | corrected: the module default becomes the value given |
| Sockets.Socket.constructor | cogen/core/sockets.py:77-81 | a new socket takes the module default timeout and is not yet added to the reactor |
| Sockets.Socket.SetTimeout | cogen/core/sockets.py:153-157 | stores the timeout and nothing else |
| Sockets.Socket.GetTimeout | cogen/core/sockets.py:159-161 | returns the stored timeout |
| Sockets.Socket.SetBlocking | cogen/core/sockets.py:168-170 | a true flag raises RuntimeError; a false one does nothing |
| Sockets.TimeoutRoundTrip | cogen/core/sockets.py:153-161 | what settimeout stores, gettimeout returns |
| Sockets.DefaultIgnoredAsWritten | cogen/core/sockets.py:42-81 | after setdefaulttimeout as written, a new socket still gets the old default |
| Sockets.DefaultApplied | cogen/core/sockets.py:42-81 | after the corrected setdefaulttimeout, a new socket gets the new default |
| Sockets.Settled | cogen/core/sockets.py:279-282 | run fails exactly when a non-zero length is already exceeded, and completes at once exactly when the length is reached |
| Sockets.SendFile.constructor | cogen/core/sockets.py:238-243 | offset and position are the given offset, or the file's position when it is None or 0; nothing is sent yet |
| Sockets.SendFile.Run | cogen/core/sockets.py:278-303 | run settles without sending, or sends the next window and adds the bytes moved; it is done when the length is reached, or on a send of 0 without a length |
| Sockets.SendFile.Iocp | cogen/core/sockets.py:262-273 | the overlapped transfer asks for the same window as run |
| Sockets.SendFile.IocpDone | cogen/core/sockets.py:275-276 | the completed byte count is added to `sent` |
| Sockets.WindowInsideFile | cogen/core/sockets.py:283-290 | with a length, each window starts where the last ended, is non-empty, stays within `offset + length` and within the block size when set, and runs to the end when it is 0 |
| Sockets.StepProgress | cogen/core/sockets.py:278-293 | with a length, `sent` never overshoots it, the operation is done exactly when it is reached, and each send that moves bytes brings it closer |
| Sockets.UnboundedEnds | cogen/core/sockets.py:294-303 | without a length the transfer ends on the first send of 0 bytes, and at once when the block size is 0 |
| Sockets.DriveEnds | cogen/core/sockets.py:278-303 | repeating `run` with a transfer that moves what the file holds: a negative length fails, a length beyond the file never completes, a length the file holds is sent exactly, and without a length the whole file is sent, or nothing with a block size of 0 |
| Server.AsBool | cogen/web/wsgi.py:731-741 | a string, stripped and lower-cased, is true or false exactly when it is in the corresponding word list and otherwise raises ValueError; another object gives its truth value |
| Server.AsBoolIgnoresPadding | cogen/web/wsgi.py:733 | whitespace around an option string does not change how it reads |
| Server.AsBoolIgnoresCase | cogen/web/wsgi.py:733 | nor does the case of its letters |
| Server.WSGIServer.constructor | cogen/web/wsgi.py:568 | the class default "localhost" |
| Server.WSGIServer.SetBindAddr | cogen/web/wsgi.py:609-624 | a `(host, port)` with host '' or None raises ValueError and keeps the old value; anything else is stored |
| Server.WSGIServer.GetBindAddr | cogen/web/wsgi.py:607-608 | returns the stored address |
| Server.BindAddrRoundTrip | cogen/web/wsgi.py:607-624 | what the setter accepts, the getter returns |

## Left out

- The scheduler, reactors and proactors, and the `async` wrappers (`COGENProxy`, the operation and call wrappers, `read_count` bookkeeping). cogen/web/async.py and the scheduler modules are not part of this model. The proxy is a record with `operation`, `result` and `exception`. The wrappers only show up as operations that the application submits.
- Real socket and file I/O:
  - the client's input is a sequence of lines, with `readline` at the end of the input giving "";
  - the output is one growing byte string;
  - `self.conn.sendfile(...)` (wsgi.py:434-440) is read as a `SendFile(file, conn, offset, length, blocksize)` operation of sockets.py, whose transfer is the file's remaining bytes cut to the response's length. The connection's socket class is not part of this model: `sockets.Socket` defines no `sendfile`, and its `makefile` takes two arguments where wsgi.py:161 passes none. Transferred's bound check and its timeout rest on this reading;
  - `os.fstat` and `tell` are the file's remaining bytes;
  - the OS transfer in `SendFile.run` is a parameter returning the byte count.
- Socket errors, closed connections, and every timeout other than the one a stalled file transfer runs into (wsgi.py:510-517). The traceback printing, warnings, `sys.exc_clear`, closing the socket, and `response.close()` (wsgi.py:490-492, 501-502, 526-533) have no effect on the modelled state.
- `urlparse`, `unquote`, `base64.decodestring` and `rfc822.formatdate` are parameters. A base64 string that does not decode, or decodes without ':', is the 500 that the resulting exception gives.
- Connection.Connection.Answer: the input position after the response is the end of the head. A body the application read through `cogen.input` is, in the model, read as the next request. The client's input is a sequence of lines, and a body is read by byte counts, so the model cannot say how far such a read goes.
- Connection.Connection.AnswerRound: the same. The input position moves to the end of the head, not past a body the application read.
- Connection.Connection.Answer: an application that catches the exception `start_response` raises and carries on is not modelled. Any fault from a call ends the response as an uncaught exception would. The application's own exception is a `Raise` step of an iterable; one raised while a file wrapper is being built is written as an iterable of the calls made so far and the `Raise`. KeyboardInterrupt, SystemExit, GeneratorExit and MemoryError, which the source re-raises, are not distinguished from other exceptions.
- Connection.Connection.Respond: every fault raised after start_response (a failing render, a second start_response) ends the connection without further output, as the bare `except` at wsgi.py:520-530 does.
- The TypeError that render_headers raises for non-string header names or values, since headers are strings in this model.
- Exception texts beyond their kind. The 400 for a header line without ':' carries `repr(ex.args)` of Python 2's unpacking error as a fixed constant.
- Python `int()` is modelled for ASCII decimal strings with surrounding whitespace and one optional sign, which may be followed by whitespace. Underscores and other bases do not arise in Python 2.
- Only the string-valued entries of the environ are modelled. The `wsgi.*` objects, `cogen.*` wrappers and `cogen.http_connection` are left out.
- Mutations of the environ by the application do not reach the connection.
- Setting TCP_CORK and TCP_NODELAY.
- The request body is not modelled. The application reads it through `cogen.input` (wsgi.py:409-412), an operation wrapper over `self.connfh`, the stream the request line and headers come from (wsgi.py:267, 337). Operations the application runs through `cogen.input` do not advance the input position in the model. Body bytes the application left unread are not consumed either, which matches the TODO at wsgi.py:508.
- Connection.FileBytes: the file's bytes are framed as the corrected program frames them (Findings row 1): the size line is `hex(n)[2:]`, and an empty file sends no chunk at all. The source writes the size line with Python's "0x" prefix.
- Connection.Connection.Commit: the buffer written with the head is framed as a chunk when the body is chunked, as the corrected program does (Findings row 4). The source writes it raw.
- Connection.Connection.SendHead: the buffer is framed as in Connection.Connection.Commit (Findings row 4), not written raw as the source does.
- Connection.Connection.SendChunk: the buffer sent with the head is framed as a chunk when the body is chunked (Findings row 4); the source sends it raw at wsgi.py:455-462.
- Connection.Connection.Pause: the buffer sent with the head before an operation is framed as in Connection.Connection.SendChunk (Findings row 4); the source sends it raw at wsgi.py:475-476.
- Connection.Connection.Finish: the buffer sent with a head still due is framed as in Connection.Connection.SendChunk (Findings row 4); the source sends it raw at wsgi.py:497-498.
- Connection.Connection.SendFile: the head, the buffer and the file follow the corrected framing of Findings rows 1 and 4, not the "0x" size line and the raw buffer of the source.
- Connection.Connection.SendRest: the file's size line is the corrected one of Findings row 1, without the "0x" prefix.
- Connection.CompletedBodyDecodes: this holds for the corrected framing of Findings rows 1 and 4. For the source as written it fails, as Connection.BufferAsWrittenUndecodable and Response.FileChunkAsWrittenUndecodable show.
- Dispatch.PathInfoDispatcher.constructor: the prefixes are stripped before sorting, as the corrected program does (Findings row 2). The source sorts first, and Dispatch.AsWrittenShadowsLongerPrefix shows what that does.
- Connection.Connection.Stall: the transfer is taken to move the whole rest of the file before it stalls. A timeout that fires earlier, on a slow connection, is not modelled. With the default `sendfile_timeout` of -1 (wsgi.py:577), which means no timeout, the source waits for ever on a length beyond the file; the model ends the connection with `Failed(OperationTimeout)`. What the client has received is the same either way.
- Connection.Connection.Refuse: the environ updates of a refused request are not kept. Only ACTUAL_SERVER_PROTOCOL is read afterwards, and the refusal does not change it.
- Server.WSGIServer.SetBindAddr: only `(host, port)` pairs and path strings are modelled, not other tuple shapes.
- The `bind_addr` uses in `serve` and `bind`, `Runner` and `server_factory`.
- The `Recv`, `Send`, `SendAll`, `Accept` and `Connect` operations of sockets.py, and the `Socket` methods that only forward to the OS socket.
- Sockets.UnboundedEnds follows the code, not the docstring of `SendFile` (sockets.py:224-227). The docstring says a block size of 0 without a length makes one send of the whole file. The code passes that block size of 0 to `send` (sockets.py:296-298), and `read(0)` gives no bytes, so the transfer completes at once with nothing sent.
- The integer widths of Python 2 are not modelled: integers are unbounded, as Python's `long` is.
- A negative block size: the block size is a natural number. `min(self.length - self.sent, blocksize)` with a negative one asks for a negative count, which is not modelled.
- Connection.Connection.SendFile: a chunked body with a block size of 0 sends no chunk, as an empty file does under the corrected framing of Findings row 1. The source announces `fsize - offset` bytes in its size line and then sends none.

## Findings

| source | as written | input that shows it | evidently intended | confidence | as-written member | corrected member |
|---|---|---|---|---|---|---|
| cogen/web/wsgi.py:433 | the file's chunk-size line is `hex(size) + "\r\n"`, which keeps Python's "0x" prefix | any file returned through `wsgi.file_wrapper` on HTTP/1.1 without a Content-Length, e.g. a 5-byte file: the size line is `0x5` | the hexadecimal size without prefix, `hex(size)[2:]`, as wsgi.py:459 writes for every other chunk. An empty file then sends no chunk at all (Response.FileChunkPayloads), because `[2:]` alone would write `0\r\n` and end the body early | high, not executed | Response.FileChunkAsWrittenUndecodable | Response.FileChunkRoundTrip |
| cogen/web/wsgi.py:121-125 | the mounts are sorted on the prefixes as given, and the trailing slashes are stripped afterwards | mounts `/a//` (app 1) and `/a/-` (app 2): `/a//` sorts first and becomes `/a`, so a request for `/a/-/x` goes to app 1 | strip first, then sort, so that a longer prefix is always tried before a shorter one it extends | medium, not executed | Dispatch.AsWrittenShadowsLongerPrefix | Dispatch.PathInfoDispatcher.constructor |
| cogen/core/sockets.py:42-45 | `_TIMEOUT = timeout` inside the function binds a local name, so the module default never changes | `setdefaulttimeout(5)`, then a new `Socket`: its timeout is still None | a `global _TIMEOUT` declaration, so that new sockets take the new default | high, not executed | Sockets.DefaultIgnoredAsWritten | Sockets.DefaultApplied |
| cogen/web/wsgi.py:427, 455, 476, 498 | the `write` buffer is sent right after the head without chunk framing, even when the body is chunked | an HTTP/1.1 application without Content-Length that calls `write("hello")` and then yields `"x"`: the body starts with `hello`, which is not a chunk-size line | the buffer framed as a chunk like every yielded value | high, not executed | Connection.BufferAsWrittenUndecodable | Connection.BufferFramedDecodes |
