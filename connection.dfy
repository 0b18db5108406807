/** WSGIConnection.run, one connection at a time: the per-request state,
    start_response, the write callable, sending the rendered head, the body
    loop over what the application yields (with the chunked coding), the
    file-wrapper branch, the bridge that runs an operation the application
    handed to the proxy, simple responses on errors, and the keep-alive loop.
    The socket is the string `sent` the connection has written so far; the
    input is the sequence of lines `readline` returns. */
module Connection {
  import opened Common
  import opened Text
  import opened Response
  import opened Request
  import opened Head
  import Sockets

  // ---------------------------------------------------------------------
  // The operation bridge (`cogen.wsgi`, an async.COGENProxy).

  /** A Python object the bridge hands back: None, or some other object. */
  datatype Value = PyNone | Object(id: nat)

  /** `sys.exc_info()`, without the traceback. */
  datatype ExcInfo = ExcInfo(kind: string, value: Value)

  /** An operation the application asks the scheduler to run. */
  datatype Operation = Operation(id: nat)

  /** How running an operation ends. */
  datatype Outcome = Returned(value: Value) | Raised(info: ExcInfo)

  /** `yield op` inside the server's coroutine: the scheduler runs the operation. */
  function OutcomeOf(perform: Operation -> Outcome, op: Operation): Outcome {
    perform(op)
  }

  /** What the proxy holds once an outcome is delivered: the value and no
      exception, or the exception and its value as the result. */
  predicate Delivered(o: Outcome, result: Value, exception: Option<ExcInfo>) {
    match o
    case Returned(v) => result == v && exception == None
    case Raised(e) => result == e.value && exception == Some(e)
  }

  /** What the application reads back from the proxy after the operation:
      the exception when one is set, otherwise the result. */
  function Resume(result: Value, exception: Option<ExcInfo>): Outcome {
    if exception.Some? then Raised(exception.value) else Returned(result)
  }

  /** The bridge loses nothing: the application gets back exactly how the
      operation ended. */
  lemma ResumeRecoversOutcome(o: Outcome, result: Value, exception: Option<ExcInfo>)
    requires Delivered(o, result, exception)
    ensures Resume(result, exception) == o
  {
  }

  class Proxy {
    var contentLength: Option<int>
    var readCount: nat
    var operation: Option<Operation>
    var result: Value
    var exception: Option<ExcInfo>

    /** The proxy of one request: its content length, nothing read, no
        operation pending, no result, no exception. */
    constructor(contentLength: Option<int>)
      ensures this.contentLength == contentLength && readCount == 0
      ensures operation == None && result == PyNone && exception == None
    {
      this.contentLength := contentLength;
      readCount := 0;
      operation := None;
      result := PyNone;
      exception := None;
    }

    /** The application's wrappers leave an operation for the server to run. */
    method Submit(op: Operation)
      modifies this
      ensures operation == Some(op)
      ensures contentLength == old(contentLength) && readCount == old(readCount)
      ensures result == old(result) && exception == old(exception)
    {
      operation := Some(op);
    }

    /** The bridge at wsgi.py:471-488: a pending operation is taken off the
        proxy and run, and how it ended is stored for the application;
        without one nothing happens. */
    method Bridge(perform: Operation -> Outcome)
      modifies this
      ensures old(operation).None? ==> unchanged(this)
      ensures old(operation).Some? ==>
                && operation == None
                && Delivered(OutcomeOf(perform, old(operation).value), result, exception)
                && contentLength == old(contentLength) && readCount == old(readCount)
    {
      if operation.Some? {
        var op := operation.value;
        operation := None;
        exception := None;
        match OutcomeOf(perform, op)
        case Returned(v) =>
          result := v;
        case Raised(e) =>
          exception := Some(e);
          result := e.value;
      }
    }
  }

  // ---------------------------------------------------------------------
  // What the application does.

  /** A call the application makes on the server's objects. */
  datatype Call =
    | Start(status: string, headers: seq<Header>, excInfo: Option<ExcInfo>) // start_response
    | WriteData(data: string)                                              // the write callable
    | Submit(op: Operation)                                                // through cogen.core or cogen.input

  /** One step of the application: a call, the next value it yields, or an
      exception of class `kind` it raises (from `wsgi_app(...)` itself or
      from its iterable), which ends it. */
  datatype Step = Calls(call: Call) | Yield(chunk: string) | Raise(kind: string)

  /** What the application returns: an iterable, taken apart into the steps
      it takes (its calls during `wsgi_app(...)` first), or a file wrapper
      after some calls, holding the file's bytes from its current position. */
  datatype AppResult =
    | Iterable(steps: seq<Step>)
    | FileWrapper(calls: seq<Call>, rest: string, blocksize: nat)

  /** A value the application yields reaches the client when it is not empty. */
  function Yielded(step: Step): seq<string> {
    if step.Yield? && step.chunk != [] then [step.chunk] else []
  }

  /** The values of the application's steps that go out, in order. */
  function NonEmptyYields(steps: seq<Step>): seq<string> {
    if steps == [] then [] else NonEmptyYields(steps[..|steps| - 1]) + Yielded(steps[|steps| - 1])
  }

  lemma NonEmptyYieldsStep(steps: seq<Step>, i: nat)
    requires i < |steps|
    ensures NonEmptyYields(steps[..i + 1]) == NonEmptyYields(steps[..i]) + Yielded(steps[i])
  {
    assert steps[..i + 1][..i] == steps[..i];
  }

  /** The application raises an exception of its own at some step. */
  predicate Raises(result: AppResult) {
    result.Iterable? && exists k :: 0 <= k < |result.steps| && result.steps[k].Raise?
  }

  /** `self.wsgi_app(ENVIRON, self.start_response)` */
  function AppOf(app: Environ -> AppResult, env: Environ): AppResult {
    app(env)
  }

  const SecondStart: string := "WSGI start_response called a second time with no exc_info."
  const NotStarted: string := "App sended a value but hasn't called start_response."
  const FileNotStarted: string := "App returned the wsgi.file_wrapper but didn't call start_response."
  const InternalError: string := "500 Internal Server Error"

  // ---------------------------------------------------------------------
  // The head on the wire.

  /** render_headers: the decisions of PlanHeaders, then the environ's
      SERVER_SOFTWARE (only when the application named no server) and
      ACTUAL_SERVER_PROTOCOL, a KeyError when missing; the head is the
      status line and the planned headers. */
  function Rendered(status: string, outheaders: seq<Header>, env: Environ, protocol: string, close: bool,
                    contentLength: Option<int>, date: string): (r: Result<(Plan, string), Fault>)
    ensures r.Err? ==> r.error.ValueError? || r.error.KeyError?
  {
    match PlanHeaders(status, outheaders, protocol, close, contentLength, date, Get(env, "SERVER_SOFTWARE"))
    case Err(f) => Err(f)
    case Ok(plan) =>
      if "server" !in Keys(outheaders) && "SERVER_SOFTWARE" !in env then Err(KeyError("SERVER_SOFTWARE"))
      else if "ACTUAL_SERVER_PROTOCOL" !in env then Err(KeyError("ACTUAL_SERVER_PROTOCOL"))
      else Ok((plan, RenderHead(env["ACTUAL_SERVER_PROTOCOL"], status, plan.headers)))
  }

  /** A head that renders reads back as the server's protocol and the status,
      with the application's headers first and a Date and a Server header
      among them, provided no header breaks the format. */
  lemma RenderedReadsBack(status: string, outheaders: seq<Header>, env: Environ, protocol: string, close: bool,
                          contentLength: Option<int>, date: string)
    requires Rendered(status, outheaders, env, protocol, close, contentLength, date).Ok?
    requires '\r' !in status
    requires "ACTUAL_SERVER_PROTOCOL" in env ==> '\r' !in env["ACTUAL_SERVER_PROTOCOL"]
    requires forall i :: 0 <= i < |Rendered(status, outheaders, env, protocol, close, contentLength, date).value.0.headers| ==>
               WellFormed(Rendered(status, outheaders, env, protocol, close, contentLength, date).value.0.headers[i])
    ensures var r := Rendered(status, outheaders, env, protocol, close, contentLength, date).value;
            && ParseHead(r.1) == Some((env["ACTUAL_SERVER_PROTOCOL"] + " " + status, r.0.headers))
            && r.0.headers[..|outheaders|] == outheaders
            && "date" in Keys(r.0.headers) && "server" in Keys(r.0.headers)
  {
    var software := Get(env, "SERVER_SOFTWARE");
    PlanAddedHeaders(status, outheaders, protocol, close, contentLength, date, software);
    PlanAlwaysDatedAndServed(status, outheaders, protocol, close, contentLength, date, software);
    var r := Rendered(status, outheaders, env, protocol, close, contentLength, date).value;
    HeadRoundTrip(env["ACTUAL_SERVER_PROTOCOL"], status, r.0.headers);
  }

  /** What follows the head in the same write: the write buffer, framed as
      a chunk when the body is chunked. */
  function BufferBytes(buffer: string, chunked: bool): string {
    if chunked then Frame(buffer) else buffer
  }

  /** As written at wsgi.py:427, 455, 476 and 498: the write buffer follows
      the head as it is, chunked body or not. */
  function BufferBytesAsWritten(buffer: string, chunked: bool): string {
    buffer
  }

  /** A chunked stream that starts with a byte that is not a hexadecimal
      digit has no chunk-size line and is refused. */
  lemma NoSizeLine(s: string)
    requires s != [] && !IsHexDigit(s[0])
    ensures DecodeChunked(s) == None
  {
    match FindCRLF(s)
    case None =>
    case Some(i) =>
      if i > 0 {
        assert s[..i][0] == s[0];
      }
  }

  /** With the buffer sent as written, the body of a chunked response that
      called `write` with text not starting with a hexadecimal digit cannot
      be decoded, whatever the application yields afterwards. */
  lemma BufferAsWrittenUndecodable(buffer: string, chunks: seq<string>)
    requires buffer != [] && !IsHexDigit(buffer[0])
    ensures DecodeChunked(BufferBytesAsWritten(buffer, true) + FrameAll(chunks) + LastChunk) == None
  {
    var s := BufferBytesAsWritten(buffer, true) + FrameAll(chunks) + LastChunk;
    assert s[0] == buffer[0];
    NoSizeLine(s);
  }

  /** With the buffer framed, the body decodes to the buffer followed by
      every chunk. */
  lemma BufferFramedDecodes(buffer: string, chunks: seq<string>)
    ensures DecodeChunked(BufferBytes(buffer, true) + FrameAll(chunks) + LastChunk) == Some(buffer + Concat(chunks))
  {
    var all := [buffer] + chunks;
    assert all[0] == buffer && all[1..] == chunks;
    assert FrameAll(all) == Frame(buffer) + FrameAll(chunks);
    assert Concat(all) == buffer + Concat(chunks);
    ChunkedRoundTrip(all);
  }

  lemma {:induction false} FrameAllAppend(chunks: seq<string>, c: string)
    ensures FrameAll(chunks + [c]) == FrameAll(chunks) + Frame(c)
  {
    if chunks == [] {
      assert [] + [c] == [c];
      assert FrameAll([c]) == Frame(c) + FrameAll([c][1..]);
    } else {
      assert (chunks + [c])[0] == chunks[0];
      assert (chunks + [c])[1..] == chunks[1..] + [c];
      FrameAllAppend(chunks[1..], c);
    }
  }

  lemma {:induction false} ConcatAppend(chunks: seq<string>, c: string)
    ensures Concat(chunks + [c]) == Concat(chunks) + c
  {
    if chunks == [] {
      assert [] + [c] == [c];
      assert Concat([c]) == c + Concat([c][1..]);
    } else {
      assert (chunks + [c])[0] == chunks[0];
      assert (chunks + [c])[1..] == chunks[1..] + [c];
      ConcatAppend(chunks[1..], c);
    }
  }

  /** What a chunk of the body looks like on the wire. */
  function BodyBytes(chunk: string, chunked: bool): string {
    if chunked then Frame(chunk) else chunk
  }

  /** The bytes one request leaves on the wire after the head: the body as
      the client reads it. */
  function Wire(body: seq<string>, chunked: bool): string {
    if chunked then FrameAll(body) else Concat(body)
  }

  lemma WireAppend(body: seq<string>, c: string, chunked: bool)
    ensures Wire(body + [c], chunked) == Wire(body, chunked) + BodyBytes(c, chunked)
  {
    if chunked {
      FrameAllAppend(body, c);
    } else {
      ConcatAppend(body, c);
    }
  }

  /** One more piece on the wire extends what was there. */
  lemma AppendAssoc(a: string, b: string, c: string)
    ensures a + (b + c) == a + b + c
  {
  }

  /** Output that grew has grown. */
  lemma PrefixOfAppend1(a: string, x: string)
    ensures a <= a + x
  {
    assert (a + x)[..|a|] == a;
  }

  /** Output that grew by two pieces has grown. */
  lemma PrefixOfAppend2(a: string, x: string, y: string)
    ensures a <= a + x + y
  {
    assert (a + x + y)[..|a|] == a;
  }

  /** Output that grew by three pieces has grown. */
  lemma PrefixOfAppend3(a: string, x: string, y: string, z: string)
    ensures a <= a + x + y + z
  {
    assert (a + x + y + z)[..|a|] == a;
  }

  lemma WireOne(c: string, chunked: bool)
    ensures Wire([c], chunked) == BufferBytes(c, chunked)
  {
    assert [c][1..] == [];
    assert FrameAll([c]) == Frame(c) + FrameAll([]);
    assert Concat([c]) == c + Concat([]);
  }

  /** How the file goes out after the head: framed by FileChunkPayloads
      in a chunked body, which is the chunk's frame. */
  function FileBytes(data: string, chunked: bool): (r: string)
    ensures r == BodyBytes(data, chunked)
  {
    FileChunkRoundTrip(data);
    if chunked then Concat(FileChunkPayloads(data)) else data
  }

  /** The bytes sendfile moves: up to the response's length when one is
      known (none at all for a length of 0); without a length, the rest of
      the file, or nothing when the block size is 0, since every call then
      asks for 0 bytes. A negative length fails the transfer's bound check;
      a length beyond the end of the file leaves sendfile moving nothing,
      round after round, until the operation times out. */
  function Transferred(rest: string, length: Option<int>, blocksize: nat): (r: Result<string, Fault>)
    ensures r == Err(AssertionError("")) <==> length.Some? && length.value < 0
    ensures r == Err(OperationTimeout) <==> length.Some? && length.value > |rest|
    ensures r.Err? ==> r.error == AssertionError("") || r.error == OperationTimeout
    ensures r.Ok? ==> |r.value| <= |rest| && r.value == rest[..|r.value|]
    ensures r.Ok? && length.Some? ==> |r.value| == length.value
    ensures r.Ok? && length.None? ==> r.value == if blocksize == 0 then [] else rest
  {
    if length.Some? && length.value < 0 then Err(AssertionError(""))
    else if length.Some? && length.value > |rest| then Err(OperationTimeout)
    else if length.Some? then Ok(rest[..length.value])
    else if blocksize == 0 then Ok([])
    else Ok(rest)
  }

  /** Transferred is what repeating SendFile's `run` moves over the rest of
      the file, with an OS transfer that moves every byte it is asked for
      that the file still holds: it fails exactly when `run` never
      completes, and otherwise moves as many bytes as `run` counts. */
  lemma TransferredIsDriven(rest: string, length: Option<int>, blocksize: nat)
    ensures Transferred(rest, length, blocksize).Ok? <==> Sockets.Drive(|rest|, length, blocksize, 0).Some?
    ensures Transferred(rest, length, blocksize).Ok? ==>
              |Transferred(rest, length, blocksize).value| == Sockets.Drive(|rest|, length, blocksize, 0).value
  {
    Sockets.DriveEnds(|rest|, length, blocksize, 0);
  }

  /** What reaches the client when the transfer stalls: the whole rest of
      the file, framed as FileBytes frames it but without the CR LF that
      would have closed its chunk. */
  function StalledBytes(rest: string, chunked: bool): (r: string)
    ensures r + (if chunked && rest != [] then CRLF else []) == FileBytes(rest, chunked)
  {
    if chunked && rest != [] then Hex(|rest|) + CRLF + rest else rest
  }

  /** The environ every request starts from, before the server's entries. */
  const ConnectionEnviron: Environ := map["wsgi.url_scheme" := "http"]

  /** Why `run` returned: more than four blank lines where a request line
      was due, a request its head refused, a failure while responding, or
      a response that closes the connection. */
  datatype Ending = NoRequest | RefusedHead(stop: Stop) | Failed(fault: Fault) | Closed

  /** The status and message of the simple response that refuses a head. */
  function Refusal(stop: Stop, traceback: string): (string, string) {
    match stop
    case Refused(st, msg) => (st, msg)
    case Crashed => (InternalError, traceback)
  }

  predicate EndsWith(s: string, t: string) {
    |t| <= |s| && s[|s| - |t|..] == t
  }

  class Connection {
    /** What the client sends, line by line. */
    const lines: seq<string>
    const serverEnviron: Environ
    /** The environ each request starts from: the connection's entries
        updated with the server's. */
    const startEnviron: Environ
    var pos: nat
    /** Everything written to the socket so far. */
    var sent: string
    var closeConnection: bool
    var startedResponse: bool
    var status: string
    var outheaders: seq<Header>
    var sentHeaders: bool
    var chunkedWrite: bool
    var writeBuffer: string
    var contentLength: Option<int>
    var responseProtocol: string
    var environ: Environ
    var lastHeader: LastHeader
    /** What the connection sent before the current response, its head,
        and the pieces of its body in the order they were sent. */
    ghost var prior: string
    ghost var head: string
    ghost var body: seq<string>

    /** Since the current response started, the connection has sent nothing
        before its head, and after the head exactly the body pieces, framed
        when the body is chunked. */
    ghost predicate Framed()
      reads this`prior, this`sent, this`sentHeaders, this`chunkedWrite, this`startedResponse,
            this`environ, this`head, this`status, this`outheaders, this`body
    {
      && (!sentHeaders ==> sent == prior && !chunkedWrite)
      && (sentHeaders ==> startedResponse && HeadRendered() && sent == prior + head + Wire(body, chunkedWrite))
    }

    /** The head on the wire is the status line on the server's protocol and
        the response's full header list, as render_headers builds it. */
    ghost predicate HeadRendered()
      reads this`environ, this`head, this`status, this`outheaders
    {
      "ACTUAL_SERVER_PROTOCOL" in environ && head == RenderHead(environ["ACTUAL_SERVER_PROTOCOL"], status, outheaders)
    }

    /** What render_headers leaves behind when its outcome is `rr`: it fails
        exactly when `rr` does, with its fault; otherwise the state holds
        the plan's headers, coding, close flag and length, and `rr`'s head. */
    ghost predicate Committed(rr: Result<(Plan, string), Fault>, fault: Option<Fault>)
      reads this`head, this`outheaders, this`chunkedWrite, this`closeConnection, this`contentLength
    {
      && (fault.Some? <==> rr.Err?)
      && (fault.Some? ==> fault.value == rr.error)
      && (rr.Ok? ==> Adopted(rr.value.0, rr.value.1))
    }

    /** The state holds the plan's headers, coding, close flag and length,
        and the head `h`. */
    ghost predicate Adopted(plan: Plan, h: string)
      reads this`head, this`outheaders, this`chunkedWrite, this`closeConnection, this`contentLength
    {
      && head == h && outheaders == plan.headers && chunkedWrite == plan.chunked
      && closeConnection == plan.close && contentLength == plan.contentLength
    }

    /** The response is over: after the head, exactly the body pieces and,
        when the body is chunked, the last chunk. */
    ghost predicate Complete()
      reads this`prior, this`sent, this`sentHeaders, this`chunkedWrite, this`startedResponse,
            this`environ, this`head, this`status, this`outheaders, this`body
    {
      && (!sentHeaders ==> sent == prior && !chunkedWrite)
      && (sentHeaders ==> startedResponse && HeadRendered() &&
                          sent == prior + head + Wire(body, chunkedWrite) + (if chunkedWrite then LastChunk else []))
    }

    /** A connection with its input, before `run` starts. */
    constructor(lines: seq<string>, serverEnviron: Environ)
      ensures this.lines == lines && this.serverEnviron == serverEnviron
      ensures startEnviron == ConnectionEnviron + serverEnviron
      ensures pos == 0 && sent == [] && !closeConnection && lastHeader == None && responseProtocol == ""
    {
      this.lines := lines;
      this.serverEnviron := serverEnviron;
      startEnviron := ConnectionEnviron + serverEnviron;
      pos := 0;
      sent := [];
      closeConnection := false;
      startedResponse := false;
      status := "";
      outheaders := [];
      sentHeaders := false;
      chunkedWrite := false;
      writeBuffer := [];
      contentLength := None;
      responseProtocol := "";
      environ := map[];
      lastHeader := None;
      prior := [];
      head := [];
      body := [];
    }

    /** The top of each round of the keep-alive loop: the response state is
        reset. */
    method BeginRequest()
      modifies this`startedResponse, this`status, this`outheaders, this`sentHeaders, this`chunkedWrite,
               this`writeBuffer, this`contentLength, this`prior, this`head, this`body
      ensures !startedResponse && status == "" && outheaders == [] && !sentHeaders && !chunkedWrite
      ensures writeBuffer == [] && contentLength == None
      ensures prior == sent && Framed()
    {
      startedResponse := false;
      status := "";
      outheaders := [];
      sentHeaders := false;
      chunkedWrite := false;
      writeBuffer := [];
      contentLength := None;
      prior := sent;
      head := [];
      body := [];
    }

    /** The environ of the next request, copied afresh from the server's. */
    method ResetEnviron()
      modifies this`environ
      ensures environ == startEnviron
    {
      environ := startEnviron;
    }

    /** `start_response`: the first call records the status and adds the
        headers; a later one fails, re-raising the application's exception
        when it passes one. */
    method StartResponse(st: string, headers: seq<Header>, excInfo: Option<ExcInfo>) returns (fault: Option<Fault>)
      modifies this`startedResponse, this`status, this`outheaders
      ensures old(startedResponse) ==>
                && unchanged(this)
                && fault == Some(if excInfo.None? then AssertionError(SecondStart) else Reraised(excInfo.value.kind))
      ensures !old(startedResponse) ==>
                fault == None && startedResponse && status == st && outheaders == old(outheaders) + headers
    {
      if startedResponse {
        if excInfo.None? {
          return Some(AssertionError(SecondStart));
        }
        return Some(Reraised(excInfo.value.kind));
      }
      startedResponse := true;
      status := st;
      outheaders := outheaders + headers;
      fault := None;
    }

    /** The write callable: the data joins the buffer, which is only ever
        sent together with the head. */
    method Write(data: string)
      modifies this`writeBuffer
      ensures writeBuffer == old(writeBuffer) + data
    {
      writeBuffer := writeBuffer + data;
    }

    /** `simple_response`: a plain-text response on the server's protocol;
        a 413 on HTTP/1.1 also closes the connection. */
    method SimpleResponse(st: string, msg: string) returns (fault: Option<Fault>)
      modifies this`sent, this`closeConnection
      ensures "ACTUAL_SERVER_PROTOCOL" !in environ ==>
                fault == Some(KeyError("ACTUAL_SERVER_PROTOCOL")) && unchanged(this)
      ensures "ACTUAL_SERVER_PROTOCOL" in environ ==>
                && fault == None
                && sent == old(sent) + SimpleResponseBytes(environ["ACTUAL_SERVER_PROTOCOL"], responseProtocol, st, msg)
                && closeConnection == (old(closeConnection) || SimpleCloses(st, responseProtocol))
    {
      if "ACTUAL_SERVER_PROTOCOL" !in environ {
        return Some(KeyError("ACTUAL_SERVER_PROTOCOL"));
      }
      if SimpleCloses(st, responseProtocol) {
        closeConnection := true;
      }
      sent := sent + SimpleResponseBytes(environ["ACTUAL_SERVER_PROTOCOL"], responseProtocol, st, msg);
      fault := None;
    }

    /** render_headers on the current state, without changing it yet. */
    method Render(date: string) returns (r: Result<(Plan, string), Fault>)
      ensures r == Rendered(status, outheaders, environ, responseProtocol, closeConnection, contentLength, date)
      ensures r.Ok? && closeConnection ==> r.value.0.close
      ensures r.Ok? && r.value.0.chunked ==> r.value.0.contentLength == contentLength
      ensures r.Ok? ==> "ACTUAL_SERVER_PROTOCOL" in environ &&
                        r.value.1 == RenderHead(environ["ACTUAL_SERVER_PROTOCOL"], status, r.value.0.headers)
    {
      r := Rendered(status, outheaders, environ, responseProtocol, closeConnection, contentLength, date);
      if r.Ok? {
        PlanFraming(status, outheaders, responseProtocol, closeConnection, contentLength, date,
                    Get(environ, "SERVER_SOFTWARE"));
      }
    }

    /** What render_headers leaves behind, and the write that sends the head
        with the buffer. The headers count as sent even when rendering
        failed, as in the source, where the flag is set first. */
    method Commit(r: Result<(Plan, string), Fault>) returns (fault: Option<Fault>)
      requires startedResponse && !sentHeaders && Framed()
      requires r.Ok? ==> "ACTUAL_SERVER_PROTOCOL" in environ &&
                         r.value.1 == RenderHead(environ["ACTUAL_SERVER_PROTOCOL"], status, r.value.0.headers)
      modifies this`sentHeaders, this`outheaders, this`chunkedWrite, this`closeConnection,
               this`contentLength, this`sent, this`head, this`body
      ensures sentHeaders
      ensures r.Err? ==> fault == Some(r.error) && sent == old(sent) && closeConnection == old(closeConnection)
      ensures r.Ok? ==>
                && fault == None && sentHeaders
                && outheaders == r.value.0.headers && chunkedWrite == r.value.0.chunked
                && closeConnection == r.value.0.close && contentLength == r.value.0.contentLength
                && head == r.value.1 && body == [writeBuffer]
                && sent == old(sent) + head + BufferBytes(writeBuffer, chunkedWrite)
                && Framed()
    {
      sentHeaders := true;
      if r.Err? {
        return Some(r.error);
      }
      Store(r.value.0, r.value.1);
      Emit(r.value.1);
      fault := None;
    }

    /** The plan render_headers leaves in the connection's state. */
    method Store(plan: Plan, h: string)
      modifies this`outheaders, this`chunkedWrite, this`closeConnection, this`contentLength, this`head, this`body
      ensures outheaders == plan.headers && chunkedWrite == plan.chunked && closeConnection == plan.close
      ensures contentLength == plan.contentLength && head == h && body == [writeBuffer]
    {
      outheaders := plan.headers;
      chunkedWrite := plan.chunked;
      closeConnection := plan.close;
      contentLength := plan.contentLength;
      head := h;
      body := [writeBuffer];
    }

    /** The one write that sends the head and the buffer. */
    method Emit(h: string)
      requires h == head && sent == prior && body == [writeBuffer]
      modifies this`sent
      ensures sent == old(sent) + head + BufferBytes(writeBuffer, chunkedWrite)
      ensures sent == prior + head + Wire(body, chunkedWrite)
    {
      WireOne(writeBuffer, chunkedWrite);
      sent := sent + h + BufferBytes(writeBuffer, chunkedWrite);
    }

    /** render_headers, then the head and the buffer on the wire. What the
        head holds is what `Render` computes; this states where it goes. */
    method SendHead(date: string) returns (fault: Option<Fault>)
      requires startedResponse && !sentHeaders && Framed()
      modifies this`sentHeaders, this`outheaders, this`chunkedWrite, this`closeConnection,
               this`contentLength, this`sent, this`head, this`body
      ensures sentHeaders
      ensures fault.Some? ==> sent == old(sent) && closeConnection == old(closeConnection)
      ensures fault.Some? ==> fault.value.ValueError? || fault.value.KeyError?
      ensures fault == None ==>
                && body == [writeBuffer] && Framed()
                && sent == old(sent) + head + BufferBytes(writeBuffer, chunkedWrite)
      ensures fault == None && chunkedWrite ==> contentLength == old(contentLength)
      ensures old(closeConnection) ==> closeConnection
      ensures Committed(old(Rendered(status, outheaders, environ, responseProtocol, closeConnection, contentLength, date)), fault)
    {
      var r := Render(date);
      fault := Commit(r);
    }

    /** Sends one more piece of the body after the head, as `bytes`, which
        must be how the piece is framed. */
    method SendPiece(chunk: string, bytes: string)
      requires sentHeaders && Framed() && bytes == BodyBytes(chunk, chunkedWrite)
      modifies this`sent, this`body
      ensures body == old(body) + [chunk]
      ensures sent == old(sent) + bytes
      ensures Framed()
    {
      WireAppend(body, chunk, chunkedWrite);
      AppendAssoc(prior + head, Wire(body, chunkedWrite), bytes);
      sent := sent + bytes;
      body := body + [chunk];
    }

    /** A non-empty value the application yields: sent after the head, which
        goes first if it has not gone yet; before start_response it fails. */
    method SendChunk(chunk: string, date: string) returns (fault: Option<Fault>)
      requires chunk != [] && Framed()
      modifies this`sentHeaders, this`outheaders, this`chunkedWrite, this`closeConnection,
               this`contentLength, this`sent, this`head, this`body
      ensures !startedResponse ==> fault == Some(AssertionError(NotStarted)) && unchanged(this)
      ensures startedResponse && old(sentHeaders) ==>
                && fault == None && body == old(body) + [chunk]
                && sent == old(sent) + BodyBytes(chunk, chunkedWrite)
      ensures startedResponse && !old(sentHeaders) && fault == None ==>
                && body == [writeBuffer, chunk]
                && sent == old(sent) + head + BufferBytes(writeBuffer, chunkedWrite) + BodyBytes(chunk, chunkedWrite)
      ensures startedResponse && !old(sentHeaders) ==>
                Committed(old(Rendered(status, outheaders, environ, responseProtocol, closeConnection, contentLength, date)), fault)
      ensures fault == None ==> Framed() && sentHeaders
      ensures old(sent) <= sent
      ensures old(closeConnection) ==> closeConnection
    {
      if !startedResponse {
        return Some(AssertionError(NotStarted));
      }
      if sentHeaders {
        SendYield(chunk);
        return None;
      }
      fault := HeadThenChunk(chunk, date);
    }

    /** A value after the head, framed when the body is chunked. */
    method SendYield(chunk: string)
      requires sentHeaders && Framed()
      modifies this`sent, this`body
      ensures body == old(body) + [chunk]
      ensures sent == old(sent) + BodyBytes(chunk, chunkedWrite)
      ensures Framed()
    {
      SendPiece(chunk, if chunkedWrite then Frame(chunk) else chunk);
    }

    /** The first value of a started response: the head, then the value. */
    method HeadThenChunk(chunk: string, date: string) returns (fault: Option<Fault>)
      requires startedResponse && !sentHeaders && Framed()
      modifies this`sentHeaders, this`outheaders, this`chunkedWrite, this`closeConnection,
               this`contentLength, this`sent, this`head, this`body
      ensures fault == None ==>
                && body == [writeBuffer, chunk] && Framed() && sentHeaders
                && sent == old(sent) + head + BufferBytes(writeBuffer, chunkedWrite) + BodyBytes(chunk, chunkedWrite)
      ensures fault.Some? ==> sent == old(sent)
      ensures Committed(old(Rendered(status, outheaders, environ, responseProtocol, closeConnection, contentLength, date)), fault)
      ensures old(closeConnection) ==> closeConnection
    {
      fault := SendHead(date);
      if fault.None? {
        SendYield(chunk);
      }
    }

    /** An empty value the application yields: the head goes out if the
        response has started, then a pending operation is run. */
    method Pause(proxy: Proxy, perform: Operation -> Outcome, date: string) returns (fault: Option<Fault>)
      requires Framed()
      modifies this`sentHeaders, this`outheaders, this`chunkedWrite, this`closeConnection,
               this`contentLength, this`sent, this`head, this`body, proxy
      ensures !startedResponse || old(sentHeaders) ==> fault == None && unchanged(this)
      ensures startedResponse && !old(sentHeaders) ==> sentHeaders && Committed(old(Rendered(status, outheaders, environ, responseProtocol, closeConnection, contentLength, date)), fault)
      ensures startedResponse && !old(sentHeaders) && fault == None ==>
                && body == [writeBuffer]
                && sent == old(sent) + head + BufferBytes(writeBuffer, chunkedWrite)
      ensures fault == None ==> Framed()
      ensures fault.Some? ==> unchanged(proxy)
      ensures fault == None && old(proxy.operation).Some? ==>
                && proxy.operation == None
                && Delivered(OutcomeOf(perform, old(proxy.operation).value), proxy.result, proxy.exception)
      ensures fault == None && old(proxy.operation).None? ==> unchanged(proxy)
      ensures old(sent) <= sent
      ensures old(closeConnection) ==> closeConnection
    {
      fault := OpenHead(date);
      if fault.None? {
        proxy.Bridge(perform);
      }
    }

    /** The head, when the response has started and it has not gone yet;
        otherwise nothing happens. */
    method OpenHead(date: string) returns (fault: Option<Fault>)
      requires Framed()
      modifies this`sentHeaders, this`outheaders, this`chunkedWrite, this`closeConnection,
               this`contentLength, this`sent, this`head, this`body
      ensures !startedResponse || old(sentHeaders) ==> fault == None && unchanged(this)
      ensures startedResponse && !old(sentHeaders) ==> sentHeaders && Committed(old(Rendered(status, outheaders, environ, responseProtocol, closeConnection, contentLength, date)), fault)
      ensures startedResponse && !old(sentHeaders) && fault == None ==>
                && body == [writeBuffer]
                && sent == old(sent) + head + BufferBytes(writeBuffer, chunkedWrite)
      ensures fault.Some? ==> sent == old(sent)
      ensures fault == None ==> Framed()
      ensures old(sent) <= sent
      ensures old(closeConnection) ==> closeConnection
    {
      fault := None;
      if startedResponse && !sentHeaders {
        fault := SendHead(date);
        if fault == None {
          PrefixOfAppend2(old(sent), head, BufferBytes(writeBuffer, chunkedWrite));
        }
      }
    }

    /** A call the application makes while it runs. */
    method Perform(call: Call, proxy: Proxy) returns (fault: Option<Fault>)
      modifies this`startedResponse, this`status, this`outheaders, this`writeBuffer, proxy
      ensures call.Start? ==>
                && (old(startedResponse) ==> fault.Some? && unchanged(this))
                && (!old(startedResponse) ==> fault == None && startedResponse && status == call.status
                                              && outheaders == old(outheaders) + call.headers)
                && writeBuffer == old(writeBuffer) && unchanged(proxy)
      ensures call.WriteData? ==> fault == None && writeBuffer == old(writeBuffer) + call.data && unchanged(proxy)
                                  && startedResponse == old(startedResponse)
      ensures call.Submit? ==> fault == None && proxy.operation == Some(call.op) && writeBuffer == old(writeBuffer)
                               && startedResponse == old(startedResponse)
      ensures fault == None ==> old(startedResponse) ==> startedResponse
      ensures !call.Start? ==> status == old(status) && outheaders == old(outheaders)
    {
      match call
      case Start(st, headers, excInfo) =>
        fault := StartResponse(st, headers, excInfo);
      case WriteData(data) =>
        Write(data);
        fault := None;
      case Submit(op) =>
        proxy.Submit(op);
        fault := None;
    }

    /** The file-wrapper branch: the head and the buffer, then the file from
        its current position, up to the response's length; a chunked body
        gets the file as one chunk, framed as FileChunkPayloads frames it. */
    method SendFile(rest: string, blocksize: nat, date: string) returns (fault: Option<Fault>)
      requires Framed()
      modifies this`sentHeaders, this`outheaders, this`chunkedWrite, this`closeConnection,
               this`contentLength, this`sent, this`head, this`body
      ensures !startedResponse ==> fault == Some(AssertionError(FileNotStarted)) && unchanged(this)
      ensures startedResponse && old(sentHeaders) ==> fault == Some(AssertionError([])) && unchanged(this)
      ensures startedResponse && !old(sentHeaders) ==> sentHeaders
      ensures fault == None ==>
                && Framed() && Transferred(rest, contentLength, blocksize).Ok?
                && body == [writeBuffer, Transferred(rest, contentLength, blocksize).value]
      ensures fault == None && contentLength.None? ==> body[1] == if blocksize == 0 then [] else rest
      ensures fault == Some(OperationTimeout) ==>
                && contentLength.Some? && contentLength.value > |rest|
                && body == [writeBuffer]
                && sent == prior + head + Wire(body, chunkedWrite) + StalledBytes(rest, chunkedWrite)
      ensures startedResponse && !old(sentHeaders) ==>
                var rr := old(Rendered(status, outheaders, environ, responseProtocol, closeConnection, contentLength, date));
                && (rr.Err? ==> fault == Some(rr.error))
                && (rr.Ok? ==> Adopted(rr.value.0, rr.value.1))
      ensures old(sent) <= sent
      ensures old(closeConnection) ==> closeConnection
    {
      if !startedResponse {
        return Some(AssertionError(FileNotStarted));
      }
      if sentHeaders {
        return Some(AssertionError([]));
      }
      ghost var rendering;
      fault, rendering := HeadThenFile(rest, blocksize, date);
    }

    /** The file-wrapper response: the head, then the transfer. */
    method HeadThenFile(rest: string, blocksize: nat, date: string) returns (fault: Option<Fault>, ghost rendering: Option<Fault>)
      requires startedResponse && !sentHeaders && Framed()
      modifies this`sentHeaders, this`outheaders, this`chunkedWrite, this`closeConnection,
               this`contentLength, this`sent, this`head, this`body
      ensures sentHeaders
      ensures fault == None ==>
                && Framed() && Transferred(rest, contentLength, blocksize).Ok?
                && body == [writeBuffer, Transferred(rest, contentLength, blocksize).value]
      ensures fault == Some(OperationTimeout) ==>
                && contentLength.Some? && contentLength.value > |rest|
                && body == [writeBuffer]
                && sent == prior + head + Wire(body, chunkedWrite) + StalledBytes(rest, chunkedWrite)
      ensures Committed(old(Rendered(status, outheaders, environ, responseProtocol, closeConnection, contentLength, date)), rendering)
      ensures rendering.Some? ==> fault == rendering
      ensures old(sent) <= sent
      ensures old(closeConnection) ==> closeConnection
    {
      ghost var before := sent;
      fault := SendHead(date);
      rendering := fault;
      if fault.None? {
        ghost var more;
        fault, more := SendRest(rest, blocksize);
        PrefixOfAppend3(before, head, BufferBytes(writeBuffer, chunkedWrite), more);
      }
    }

    /** The transfer after the head: the bytes sendfile moves, framed as one
        more body piece; or the rest of the file without the end of its
        frame, when the transfer stalls; or nothing, when the length is
        refused. */
    method SendRest(rest: string, blocksize: nat) returns (fault: Option<Fault>, ghost more: string)
      requires sentHeaders && Framed() && body == [writeBuffer]
      modifies this`sent, this`body
      ensures fault.Some? <==> Transferred(rest, contentLength, blocksize).Err?
      ensures fault.Some? ==> fault.value == Transferred(rest, contentLength, blocksize).error
      ensures fault == None ==>
                && Framed() && Transferred(rest, contentLength, blocksize).Ok?
                && body == [writeBuffer, Transferred(rest, contentLength, blocksize).value]
      ensures fault == None && contentLength.None? ==> body[1] == if blocksize == 0 then [] else rest
      ensures fault == Some(OperationTimeout) ==>
                && contentLength.Some? && contentLength.value > |rest|
                && body == [writeBuffer]
                && sent == prior + head + Wire(body, chunkedWrite) + StalledBytes(rest, chunkedWrite)
      ensures sent == old(sent) + more
    {
      var moved := Transferred(rest, contentLength, blocksize);
      if moved.Err? {
        more := [];
        if moved.error == OperationTimeout {
          Stall(rest);
          more := StalledBytes(rest, chunkedWrite);
        }
        return Some(moved.error), more;
      }
      var bytes := FileBytes(moved.value, chunkedWrite);
      SendPiece(moved.value, bytes);
      more := bytes;
      fault := None;
    }

    /** The file's bytes going out without the end of their frame, when
        the transfer stalls before the response's length is reached. */
    method Stall(rest: string)
      requires sentHeaders && Framed()
      modifies this`sent
      ensures sent == prior + head + Wire(body, chunkedWrite) + StalledBytes(rest, chunkedWrite)
      ensures sent == old(sent) + StalledBytes(rest, chunkedWrite)
    {
      sent := sent + StalledBytes(rest, chunkedWrite);
    }

    /** After the body: the head if it has not gone yet, and the last chunk
        of a chunked body. */
    method Finish(date: string) returns (fault: Option<Fault>)
      requires Framed()
      modifies this`sentHeaders, this`outheaders, this`chunkedWrite, this`closeConnection,
               this`contentLength, this`sent, this`head, this`body
      ensures !startedResponse || old(sentHeaders) ==> fault == None
      ensures startedResponse && !old(sentHeaders) ==> Committed(old(Rendered(status, outheaders, environ, responseProtocol, closeConnection, contentLength, date)), fault)
      ensures fault.Some? ==> sent == old(sent)
      ensures fault == None ==> Complete() && (startedResponse ==> sentHeaders)
      ensures fault == None && old(sentHeaders) ==> body == old(body)
      ensures fault == None && startedResponse && !old(sentHeaders) ==> body == [writeBuffer]
      ensures !startedResponse && !old(sentHeaders) ==> sent == old(sent)
      ensures sentHeaders == (old(sentHeaders) || startedResponse)
      ensures !(startedResponse && !old(sentHeaders)) ==> body == old(body) && contentLength == old(contentLength)
      ensures old(sent) <= sent
      ensures old(closeConnection) ==> closeConnection
    {
      if startedResponse && !sentHeaders {
        fault := HeadThenClose(date);
      } else {
        Close();
        PrefixOfAppend1(old(sent), if chunkedWrite then LastChunk else []);
        fault := None;
      }
    }

    /** The end of a response whose head has not gone yet: the head and the
        buffer, then the last chunk of a chunked body. */
    method HeadThenClose(date: string) returns (fault: Option<Fault>)
      requires startedResponse && !sentHeaders && Framed()
      modifies this`sentHeaders, this`outheaders, this`chunkedWrite, this`closeConnection,
               this`contentLength, this`sent, this`head, this`body
      ensures sentHeaders
      ensures Committed(old(Rendered(status, outheaders, environ, responseProtocol, closeConnection, contentLength, date)), fault)
      ensures fault.Some? ==> sent == old(sent)
      ensures fault == None ==> Complete() && body == [writeBuffer]
      ensures old(sent) <= sent
      ensures old(closeConnection) ==> closeConnection
    {
      fault := SendHead(date);
      if fault.None? {
        Close();
        PrefixOfAppend3(old(sent), head, BufferBytes(writeBuffer, chunkedWrite), if chunkedWrite then LastChunk else []);
      }
    }

    /** The end of the body: the last chunk, when the body is chunked. */
    method Close()
      requires Framed()
      modifies this`sent
      ensures sent == old(sent) + (if chunkedWrite then LastChunk else [])
      ensures Complete()
    {
      if chunkedWrite {
        sent := sent + LastChunk;
      }
    }

    /** The response to one request, from what the application returned:
        its calls and yielded values in order, or the file it handed back,
        then the end of the body. A fault ends the response where it
        happened; before start_response nothing has been sent. */
    method Respond(result: AppResult, proxy: Proxy, perform: Operation -> Outcome, date: string)
      returns (fault: Option<Fault>)
      requires Framed() && !startedResponse && !sentHeaders
      modifies this`startedResponse, this`status, this`outheaders, this`writeBuffer, this`sentHeaders,
               this`chunkedWrite, this`closeConnection, this`contentLength, this`sent, this`head, this`body, proxy
      ensures fault == None ==> Complete() && (startedResponse ==> sentHeaders)
      ensures fault == None && result.Iterable? ==>
                && (sentHeaders ==> |body| >= 1 && body[1..] == NonEmptyYields(result.steps))
                && (!sentHeaders ==> NonEmptyYields(result.steps) == [])
      ensures fault == None && result.FileWrapper? ==>
                && Transferred(result.rest, contentLength, result.blocksize).Ok?
                && body == [writeBuffer, Transferred(result.rest, contentLength, result.blocksize).value]
      ensures Raises(result) ==> fault.Some?
      ensures !startedResponse ==> sent == old(sent)
      ensures old(sent) <= sent
      ensures old(closeConnection) ==> closeConnection
    {
      match result {
        case FileWrapper(calls, rest, blocksize) =>
          fault := RespondFile(calls, rest, blocksize, proxy, date);
        case Iterable(steps) =>
          fault := RespondSteps(steps, proxy, perform, date);
      }
      if fault.None? {
        fault := Finish(date);
      }
    }

    /** The file-wrapper branch: the calls made while the application ran,
        then the file. */
    method RespondFile(calls: seq<Call>, rest: string, blocksize: nat, proxy: Proxy, date: string) returns (fault: Option<Fault>)
      requires Framed() && !startedResponse && !sentHeaders
      modifies this`startedResponse, this`status, this`outheaders, this`writeBuffer, this`sentHeaders,
               this`chunkedWrite, this`closeConnection, this`contentLength, this`sent, this`head, this`body, proxy
      ensures fault == None ==>
                && Framed() && startedResponse && sentHeaders && Transferred(rest, contentLength, blocksize).Ok?
                && body == [writeBuffer, Transferred(rest, contentLength, blocksize).value]
      ensures !startedResponse ==> sent == old(sent) && !sentHeaders
      ensures old(sent) <= sent
      ensures old(closeConnection) ==> closeConnection
    {
      var i := 0;
      while i < |calls|
        invariant 0 <= i <= |calls|
        invariant Framed() && !sentHeaders && sent == old(sent)
        invariant closeConnection == old(closeConnection)
      {
        fault := Perform(calls[i], proxy);
        if fault.Some? {
          return;
        }
        i := i + 1;
      }
      fault := SendFile(rest, blocksize, date);
    }

    /** The body loop: each call the application makes and each value it
        yields, in order, until one fails. */
    method RespondSteps(steps: seq<Step>, proxy: Proxy, perform: Operation -> Outcome, date: string)
      returns (fault: Option<Fault>)
      requires Framed() && !startedResponse && !sentHeaders
      modifies this`startedResponse, this`status, this`outheaders, this`writeBuffer, this`sentHeaders,
               this`chunkedWrite, this`closeConnection, this`contentLength, this`sent, this`head, this`body, proxy
      ensures fault == None ==> Framed()
      ensures fault == None && sentHeaders ==> |body| >= 1 && body[1..] == NonEmptyYields(steps)
      ensures fault == None && !sentHeaders ==> NonEmptyYields(steps) == []
      ensures Raises(Iterable(steps)) ==> fault.Some?
      ensures !startedResponse ==> sent == old(sent) && !sentHeaders
      ensures old(sent) <= sent
      ensures old(closeConnection) ==> closeConnection
    {
      var i := 0;
      while i < |steps|
        invariant 0 <= i <= |steps|
        invariant Framed() && (!startedResponse ==> sent == old(sent) && !sentHeaders)
        invariant Carries(NonEmptyYields(steps[..i]))
        invariant forall k :: 0 <= k < i ==> !steps[k].Raise?
        invariant old(sent) <= sent
        invariant old(closeConnection) ==> closeConnection
      {
        NonEmptyYieldsStep(steps, i);
        fault := TakeStep(steps[i], NonEmptyYields(steps[..i]), proxy, perform, date);
        if fault.Some? {
          return;
        }
        i := i + 1;
      }
      assert steps[..i] == steps;
      fault := None;
    }

    /** The body pieces after the buffer are `pieces`; before the head has
        gone, no piece has. */
    ghost predicate Carries(pieces: seq<string>)
      reads this
    {
      && (sentHeaders ==> |body| >= 1 && body[1..] == pieces)
      && (!sentHeaders ==> pieces == [])
    }

    /** One step of the application: its call, the value it yields, or the
        exception it raises. */
    method TakeStep(step: Step, ghost pieces: seq<string>, proxy: Proxy, perform: Operation -> Outcome, date: string)
      returns (fault: Option<Fault>)
      requires Framed() && Carries(pieces)
      modifies this`startedResponse, this`status, this`outheaders, this`writeBuffer, this`sentHeaders,
               this`chunkedWrite, this`closeConnection, this`contentLength, this`sent, this`head, this`body, proxy
      ensures fault == None ==> Framed() && Carries(pieces + Yielded(step))
      ensures step.Raise? ==> fault == Some(AppException(step.kind))
      ensures old(startedResponse) ==> startedResponse
      ensures !startedResponse ==> sent == old(sent) && sentHeaders == old(sentHeaders)
      ensures old(sent) <= sent
      ensures old(closeConnection) ==> closeConnection
    {
      match step {
        case Calls(call) =>
          fault := Perform(call, proxy);
        case Yield(chunk) =>
          fault := TakeYield(chunk, pieces, proxy, perform, date);
        case Raise(kind) =>
          fault := Some(AppException(kind));
      }
    }

    /** A value the application yields: sent when it is not empty, a pause
        for a pending operation otherwise. */
    method TakeYield(chunk: string, ghost pieces: seq<string>, proxy: Proxy, perform: Operation -> Outcome, date: string)
      returns (fault: Option<Fault>)
      requires Framed() && Carries(pieces)
      modifies this`sentHeaders, this`outheaders, this`chunkedWrite, this`closeConnection,
               this`contentLength, this`sent, this`head, this`body, proxy
      ensures fault == None ==> Framed() && Carries(pieces + Yielded(Yield(chunk)))
      ensures !startedResponse ==> sent == old(sent) && sentHeaders == old(sentHeaders)
      ensures old(sent) <= sent
      ensures old(closeConnection) ==> closeConnection
    {
      if chunk != [] {
        ghost var before := body;
        fault := SendChunk(chunk, date);
        if fault.None? && old(sentHeaders) {
          assert body[1..] == before[1..] + [chunk];
        }
      } else {
        fault := Pause(proxy, perform, date);
      }
    }

    /** What the connection looks like when `run` returns for `e`. */
    ghost predicate Ended(e: Ending, traceback: string)
      reads this
    {
      match e
      case NoRequest => Blanks(lines, pos) > 4
      case RefusedHead(stop) =>
        "ACTUAL_SERVER_PROTOCOL" in environ ==>
          EndsWith(sent, SimpleResponseBytes(environ["ACTUAL_SERVER_PROTOCOL"], responseProtocol,
                                             Refusal(stop, traceback).0, Refusal(stop, traceback).1))
      case Failed(_) =>
        !startedResponse && "ACTUAL_SERVER_PROTOCOL" in environ ==>
          EndsWith(sent, SimpleResponseBytes(environ["ACTUAL_SERVER_PROTOCOL"], responseProtocol, InternalError, traceback))
      case Closed => closeConnection && Complete()
    }

    /** One round of the keep-alive loop: the request line, the head, then
        the application and its response, or the response that refuses the
        request. It goes on to the next request (None) only when the head
        was read to its end, the response completed, and nothing asked to
        close; otherwise it says why the connection ends. */
    method ServeRequest(app: Environ -> AppResult, perform: Operation -> Outcome,
                        urlparse: string -> Target, unquote: string -> string,
                        b64decode: string -> Option<string>, date: string, traceback: string)
      returns (ending: Option<Ending>)
      modifies this
      ensures ending.None? ==> old(pos) < pos <= |lines| && !closeConnection && Complete()
      ensures ending.Some? ==> Ended(ending.value, traceback)
      ensures ending == Some(NoRequest) <==> Blanks(lines, old(pos)) > 4
      ensures old(pos) <= pos
      ensures old(closeConnection) ==> ending.Some?
      ensures old(sent) <= sent
    {
      ghost var start, wire, closing := pos, sent, closeConnection;
      BeginRequest();
      assert pos == start && sent == wire && closeConnection == closing;
      ResetEnviron();
      var read := ReadNext(urlparse, unquote, b64decode);
      ending := Round(read, app, perform, date, traceback);
    }

    /** What follows reading a head: nothing when no request came, the
        refusal when the head was refused, the answer otherwise. */
    method Round(read: Option<Result<Head, Stop>>, app: Environ -> AppResult, perform: Operation -> Outcome,
                 date: string, traceback: string)
      returns (ending: Option<Ending>)
      requires Framed() && !startedResponse && !sentHeaders
      requires read.None? <==> Blanks(lines, pos) > 4
      requires read.Some? ==> Advances(read.value, pos, lines, closeConnection)
      modifies this
      ensures ending.None? ==> old(pos) < pos <= |lines| && !closeConnection && Complete()
      ensures ending.Some? ==> Ended(ending.value, traceback)
      ensures ending == Some(NoRequest) <==> Blanks(lines, old(pos)) > 4
      ensures old(pos) <= pos
      ensures old(closeConnection) ==> ending.Some?
      ensures old(sent) <= sent
    {
      if read.None? {
        return Some(NoRequest);
      }
      if read.value.Err? {
        ending := RefuseRound(read.value.error, traceback);
        return;
      }
      ending := AnswerRound(read.value.value, app, perform, date, traceback);
    }

    /** A round whose head was refused ends the connection. */
    method RefuseRound(stop: Stop, traceback: string) returns (ending: Option<Ending>)
      modifies this`sent, this`closeConnection
      ensures ending == Some(RefusedHead(stop)) && Ended(ending.value, traceback)
      ensures old(sent) <= sent
    {
      Refuse(stop, traceback);
      ending := Some(RefusedHead(stop));
    }

    /** A round whose head was read: the connection goes on only when the
        response completed and does not close it. */
    method AnswerRound(h: Head, app: Environ -> AppResult, perform: Operation -> Outcome, date: string, traceback: string)
      returns (ending: Option<Ending>)
      requires Framed() && !startedResponse && !sentHeaders
      modifies this
      ensures pos == h.next
      ensures ending.None? ==> !closeConnection && Complete()
      ensures ending.Some? ==> ending.value != NoRequest && Ended(ending.value, traceback)
      ensures h.close ==> ending.Some?
      ensures old(sent) <= sent
    {
      var fault := Answer(h, app, perform, date, traceback);
      if fault.Some? {
        return Some(Failed(fault.value));
      }
      if closeConnection {
        return Some(Closed);
      }
      ending := None;
    }

    /** The next request line, after up to four blank lines, and its head;
        None when a fifth blank line makes the server give up. A head that
        is read ends on a line of the input past the current position, and
        a connection that was to close still is. */
    method ReadNext(urlparse: string -> Target, unquote: string -> string, b64decode: string -> Option<string>)
      returns (read: Option<Result<Head, Stop>>)
      ensures read.None? <==> Blanks(lines, pos) > 4
      ensures read.Some? ==> Advances(read.value, pos, lines, closeConnection)
    {
      var line, next := ReadRequestLine(lines, pos);
      if line.None? {
        return None;
      }
      var r := ReadRequest(lines, next - 1, environ, closeConnection, lastHeader, urlparse, unquote, b64decode);
      read := Some(r);
    }

    /** The response to a request refused while its head was read: the
        refusal's status and message, or a 500 with the traceback; a 501
        also closes the connection. */
    method Refuse(stop: Stop, traceback: string)
      modifies this`sent, this`closeConnection
      ensures stop.Refused? && stop.status == Unimplemented ==> closeConnection
      ensures old(closeConnection) ==> closeConnection
      ensures "ACTUAL_SERVER_PROTOCOL" in environ ==>
                sent == old(sent) + SimpleResponseBytes(environ["ACTUAL_SERVER_PROTOCOL"], responseProtocol,
                                                        Refusal(stop, traceback).0, Refusal(stop, traceback).1)
      ensures old(sent) <= sent
    {
      match stop {
        case Refused(st, msg) =>
          var _ := SimpleResponse(st, msg);
          if st == Unimplemented {
            closeConnection := true;
          }
        case Crashed =>
          var _ := SimpleResponse(InternalError, traceback);
      }
    }

    /** A request whose head was read: the application is called with the
        head's environ and its response sent; a failure before
        start_response is answered with a 500 and the traceback, one after
        it ends the response where it happened. */
    method Answer(h: Head, app: Environ -> AppResult, perform: Operation -> Outcome, date: string, traceback: string)
      returns (fault: Option<Fault>)
      requires Framed() && !startedResponse && !sentHeaders
      modifies this
      ensures pos == h.next && environ == h.env && responseProtocol == h.responseProtocol
      ensures fault == None ==> Complete() && (h.close ==> closeConnection)
      ensures fault == None && AppOf(app, h.env).Iterable? ==>
                && (sentHeaders ==> |body| >= 1 && body[1..] == NonEmptyYields(AppOf(app, h.env).steps))
                && (!sentHeaders ==> NonEmptyYields(AppOf(app, h.env).steps) == [])
      ensures fault == None && AppOf(app, h.env).FileWrapper? ==>
                && Transferred(AppOf(app, h.env).rest, contentLength, AppOf(app, h.env).blocksize).Ok?
                && body == [writeBuffer, Transferred(AppOf(app, h.env).rest, contentLength, AppOf(app, h.env).blocksize).value]
      ensures Raises(AppOf(app, h.env)) ==> fault.Some?
      ensures fault.Some? && !startedResponse && "ACTUAL_SERVER_PROTOCOL" in h.env ==>
                sent == old(sent) + SimpleResponseBytes(h.env["ACTUAL_SERVER_PROTOCOL"], h.responseProtocol,
                                                        InternalError, traceback)
      ensures old(sent) <= sent
    {
      Adopt(h);
      var proxy := new Proxy(h.proxyLength);
      fault := Respond(AppOf(app, environ), proxy, perform, date);
      if fault.Some? && !startedResponse {
        var _ := SimpleResponse(InternalError, traceback);
      }
    }

    /** What the head decided becomes the connection's: the environ, the
        response protocol, the keep-alive decision, the last header named,
        and the position after the head. */
    method Adopt(h: Head)
      modifies this`environ, this`responseProtocol, this`closeConnection, this`lastHeader, this`pos
      ensures environ == h.env && responseProtocol == h.responseProtocol && closeConnection == h.close
      ensures lastHeader == h.last && pos == h.next
    {
      environ := h.env;
      responseProtocol := h.responseProtocol;
      closeConnection := h.close;
      lastHeader := h.last;
      pos := h.next;
    }

    /** `run`: requests are served one after the other on the connection
        until one ends it, and it says why; every round that goes on has
        read at least one more line of the input, so the loop ends. */
    method Run(app: Environ -> AppResult, perform: Operation -> Outcome,
               urlparse: string -> Target, unquote: string -> string,
               b64decode: string -> Option<string>, date: string, traceback: string)
      returns (ending: Ending)
      requires pos <= |lines|
      modifies this
      ensures Ended(ending, traceback)
      ensures old(sent) <= sent
      ensures old(pos) <= pos
    {
      closeConnection := false;
      var round: Option<Ending> := None;
      while round.None?
        invariant round.None? ==> old(pos) <= pos <= |lines| && !closeConnection
        invariant round.Some? ==> old(pos) <= pos && Ended(round.value, traceback)
        invariant old(sent) <= sent
        decreases if round.None? then |lines| + 1 - pos else 0
      {
        round := ServeRequest(app, perform, urlparse, unquote, b64decode, date, traceback);
      }
      ending := round.value;
    }
  }

  /** A completed chunked response: what follows its head is the framed
      body pieces and the last chunk, and that decodes to the pieces in
      order, so the client reads exactly what was sent. */
  lemma CompletedBodyDecodes(c: Connection)
    requires c.Complete() && c.sentHeaders && c.chunkedWrite
    ensures c.sent == c.prior + c.head + (FrameAll(c.body) + LastChunk)
    ensures DecodeChunked(FrameAll(c.body) + LastChunk) == Some(Concat(c.body))
  {
    AppendAssoc(c.prior + c.head, FrameAll(c.body), LastChunk);
    ChunkedRoundTrip(c.body);
  }

  /** A completed response whose body is not chunked: what follows its
      head is the body pieces, one after the other. */
  lemma CompletedBodyPlain(c: Connection)
    requires c.Complete() && c.sentHeaders && !c.chunkedWrite
    ensures |c.prior| + |c.head| <= |c.sent|
    ensures c.sent[|c.prior| + |c.head|..] == Concat(c.body)
  {
    assert c.sent == c.prior + c.head + Concat(c.body) + [];
    assert c.sent[|c.prior| + |c.head|..] == Concat(c.body);
  }
}
