/** One request head read from start to end: the request line and its
    environ entries, the header lines, and the decisions taken after them,
    composed as WSGIConnection.run composes them. */
module Head {
  import opened Common
  import opened Text
  import opened Request

  /** What `urlparse` gives: scheme, location, path, parameters, query and
      fragment. */
  datatype Target = Target(scheme: string, location: string, path: string,
                           params: string, query: string, fragment: string)

  /** How reading a request head can end without calling the application
      (the blank lines before the request line are skipped before it). */
  datatype Stop =
    | Refused(status: string, msg: string)   // a simple response, then the end
    | Crashed                                // an exception: 500 with the traceback

  const FragmentMessage: string := "Illegal #fragment in Request-URI."
  const UnsupportedVersion: string := "505 HTTP Version Not Supported"
  const BadRequest: string := "400 Bad Request"
  /** `repr(ex.args)` of the ValueError a line without ':' raises. */
  const UnpackMessage: string := "('need more than 1 value to unpack',)"
  const Unimplemented: string := "501 Unimplemented"

  /** The entries the request line sets before the version is looked at
      (a URI without fragment). */
  function LineEntries(base: Environ, rl: RequestLine, target: Target, unquote: string -> string): Environ {
    var env1 := base["REQUEST_METHOD" := rl.requestMethod]["CONTENT_LENGTH" := ""];
    var env2 := if target.scheme != "" then env1["wsgi.url_scheme" := target.scheme] else env1;
    var path := if target.params != "" then target.path + ";" + target.params else target.path;
    env2["SCRIPT_NAME" := ""]["PATH_INFO" := UnquotePath(path, unquote)]["QUERY_STRING" := target.query]
  }

  /** The environ entries taken from the request line, and the response
      protocol agreed on. */
  function RequestEnviron(base: Environ, rl: RequestLine, target: Target,
                          unquote: string -> string): Result<(Environ, string), Stop>
  {
    if target.fragment != "" then Err(Refused(BadRequest, FragmentMessage))
    else
      var env := LineEntries(base, rl, target, unquote);
      if "ACTUAL_SERVER_PROTOCOL" !in env then Err(Crashed)
      else
        match Negotiate(rl.protocol, env["ACTUAL_SERVER_PROTOCOL"])
        case Unreadable => Err(Crashed)
        case Unsupported => Err(Refused(UnsupportedVersion, ""))
        case Agreed(protocol) =>
          var env' := env["SERVER_PROTOCOL" := rl.protocol];
          Ok((if target.location != "" then env'["SERVER_NAME" := target.location] else env', protocol))
  }

  /** The request line's entries: the method, an empty CONTENT_LENGTH and
      SCRIPT_NAME, the unquoted path with its parameters as PATH_INFO, the
      query left quoted, and the URI's scheme as the URL scheme when it has
      one; the server's own entries stay. */
  lemma LineEntriesValues(base: Environ, rl: RequestLine, target: Target, unquote: string -> string)
    ensures var env := LineEntries(base, rl, target, unquote);
            var path := if target.params != "" then target.path + ";" + target.params else target.path;
            && env["REQUEST_METHOD"] == rl.requestMethod && env["CONTENT_LENGTH"] == ""
            && env["SCRIPT_NAME"] == "" && env["PATH_INFO"] == UnquotePath(path, unquote)
            && env["QUERY_STRING"] == target.query
            && ("ACTUAL_SERVER_PROTOCOL" in env <==> "ACTUAL_SERVER_PROTOCOL" in base)
            && ("ACTUAL_SERVER_PROTOCOL" in base ==> env["ACTUAL_SERVER_PROTOCOL"] == base["ACTUAL_SERVER_PROTOCOL"])
            && (target.scheme != "" ==> env["wsgi.url_scheme"] == target.scheme)
            && (target.scheme == "" ==> ("wsgi.url_scheme" in env <==> "wsgi.url_scheme" in base))
            && (target.scheme == "" && "wsgi.url_scheme" in base ==> env["wsgi.url_scheme"] == base["wsgi.url_scheme"])
  {
  }

  /** A URI with a fragment is refused with 400; otherwise the request goes
      on exactly when the versions agree, and a different major version is
      refused with 505. */
  lemma RequestEnvironOutcome(base: Environ, rl: RequestLine, target: Target, unquote: string -> string)
    requires "ACTUAL_SERVER_PROTOCOL" in base
    ensures var r := RequestEnviron(base, rl, target, unquote);
            var n := Negotiate(rl.protocol, base["ACTUAL_SERVER_PROTOCOL"]);
            && (target.fragment != "" ==> r == Err(Refused(BadRequest, FragmentMessage)))
            && (target.fragment == "" ==> (r.Ok? <==> n.Agreed?))
            && (target.fragment == "" && n == Unsupported ==> r == Err(Refused(UnsupportedVersion, "")))
            && (r.Ok? ==> r.value.1 == n.responseProtocol)
  {
    LineEntriesValues(base, rl, target, unquote);
  }

  /** Going on, the environ also names the request's protocol and, for an
      absolute URI, the server it named. */
  lemma RequestEnvironEntries(base: Environ, rl: RequestLine, target: Target, unquote: string -> string)
    requires RequestEnviron(base, rl, target, unquote).Ok?
    ensures var env := RequestEnviron(base, rl, target, unquote).value.0;
            var path := if target.params != "" then target.path + ";" + target.params else target.path;
            && env["REQUEST_METHOD"] == rl.requestMethod
            && env["SCRIPT_NAME"] == "" && env["PATH_INFO"] == UnquotePath(path, unquote)
            && env["QUERY_STRING"] == target.query && env["SERVER_PROTOCOL"] == rl.protocol
            && (target.location != "" ==> env["SERVER_NAME"] == target.location)
  {
    LineEntriesValues(base, rl, target, unquote);
  }

  /** `urlparse(uri)` */
  function TargetOf(urlparse: string -> Target, uri: string): Target {
    urlparse(uri)
  }

  /** A successfully read request head. */
  datatype Head = Head(env: Environ, responseProtocol: string, close: bool,
                       last: LastHeader, next: nat, proxyLength: Option<int>)

  /** What follows the header lines: the content headers are moved, the
      credentials read, the keep-alive decision taken, transfer codings
      refused and the proxy's length read. */
  function AfterHeaders(env: Environ, requestProtocol: string, responseProtocol: string, close: bool,
                        b64decode: string -> Option<string>): Result<(Environ, bool, Option<int>), Stop>
  {
    match Authorize(MoveContentHeaders(env), b64decode)
    case None => Err(Crashed)
    case Some(env1) =>
      if RejectsCodings(responseProtocol, env1) then Err(Refused(Unimplemented, ""))
      else
        match ProxyLength(env1)
        case Err(_) => Err(Crashed)
        case Ok(length) => Ok((env1, close || ClosesAfter(requestProtocol, env1), length))
  }

  /** Reads one request head whose request line is line `at` (the blank
      lines before it already skipped): the request line, the header lines
      up to the empty line, and the decisions that follow. */
  function ReadHead(lines: seq<string>, at: nat, base: Environ, close: bool, last: LastHeader,
                    urlparse: string -> Target, unquote: string -> string,
                    b64decode: string -> Option<string>): Result<Head, Stop>
  {
    match SplitRequestLine(Line(lines, at))
    case None => Err(Crashed)
    case Some(rl) =>
      HeadAfterLine(lines, at + 1, RequestEnviron(base, rl, TargetOf(urlparse, rl.uri), unquote),
                    rl.protocol, close, last, b64decode)
  }

  function HeadAfterLine(lines: seq<string>, i: nat, started: Result<(Environ, string), Stop>, requestProtocol: string,
                         close: bool, last: LastHeader, b64decode: string -> Option<string>): Result<Head, Stop>
  {
    match started
    case Err(stop) => Err(stop)
    case Ok(e) => HeadFrom(lines, i, e.0, requestProtocol, e.1, close, last, b64decode)
  }

  /** The header lines from position `i` and the decisions after them. */
  function HeadFrom(lines: seq<string>, i: nat, env: Environ, requestProtocol: string, responseProtocol: string,
                    close: bool, last: LastHeader, b64decode: string -> Option<string>): Result<Head, Stop>
  {
    match FoldFrom(lines, i, env, last)
    case Malformed => Err(Refused(BadRequest, UnpackMessage))
    case Broken => Err(Crashed)
    case Folded(env', last', next) =>
      match AfterHeaders(env', requestProtocol, responseProtocol, close, b64decode)
      case Err(stop) => Err(stop)
      case Ok(done) => Ok(Head(done.0, responseProtocol, done.1, last', next, done.2))
  }

  /** Reading the head as `run` does, the header lines by the loop of
      FoldHeaders; it reads exactly what ReadHead describes. */
  method ReceiveHead(lines: seq<string>, at: nat, base: Environ, close: bool, last: LastHeader,
                     urlparse: string -> Target, unquote: string -> string,
                     b64decode: string -> Option<string>) returns (r: Result<Head, Stop>)
    ensures r == ReadHead(lines, at, base, close, last, urlparse, unquote, b64decode)
  {
    var rl := SplitRequestLine(Line(lines, at));
    if rl.None? {
      return Err(Crashed);
    }
    var started := RequestEnviron(base, rl.value, TargetOf(urlparse, rl.value.uri), unquote);
    if started.Err? {
      return Err(started.error);
    }
    r := ReceiveHeaders(lines, at + 1, started.value.0, rl.value.protocol, started.value.1, close, last, b64decode);
  }

  /** The header lines from position `i`, by the loop of FoldHeaders, and
      the decisions after them, exactly as HeadFrom describes. */
  method ReceiveHeaders(lines: seq<string>, i: nat, env: Environ, requestProtocol: string, responseProtocol: string,
                        close: bool, last: LastHeader, b64decode: string -> Option<string>)
    returns (r: Result<Head, Stop>)
    ensures r == HeadFrom(lines, i, env, requestProtocol, responseProtocol, close, last, b64decode)
  {
    var folded := FoldHeaders(lines, i, env, last);
    match folded
    case Malformed =>
      r := Err(Refused(BadRequest, UnpackMessage));
    case Broken =>
      r := Err(Crashed);
    case Folded(env', last', next) =>
      var done := AfterHeaders(env', requestProtocol, responseProtocol, close, b64decode);
      if done.Err? {
        return Err(done.error);
      }
      r := Ok(Head(done.value.0, responseProtocol, done.value.1, last', next, done.value.2));
  }

  /** The head whose request line is line `at`, read by ReceiveHead: if
      it is read, it ends on a line of the input past `at`, and a
      connection that was to close still is. */
  method ReadRequest(lines: seq<string>, at: nat, base: Environ, close: bool, last: LastHeader,
                     urlparse: string -> Target, unquote: string -> string,
                     b64decode: string -> Option<string>) returns (r: Result<Head, Stop>)
    ensures Advances(r, at, lines, close)
  {
    r := ReceiveHead(lines, at, base, close, last, urlparse, unquote, b64decode);
    ReadHeadAdvances(lines, at, base, close, last, urlparse, unquote, b64decode);
  }

  /** Once the connection is to close, it stays so. */
  lemma AfterHeadersKeepsClose(env: Environ, requestProtocol: string, responseProtocol: string, close: bool,
                               b64decode: string -> Option<string>)
    ensures var r := AfterHeaders(env, requestProtocol, responseProtocol, close, b64decode);
            r.Ok? ==> r.value.1 == (close || ClosesAfter(requestProtocol, r.value.0))
  {
  }

  /** A head that is read ends after the line `after`, on a line of the
      input, and keeps a connection that was to close closing. */
  predicate Advances(r: Result<Head, Stop>, after: int, lines: seq<string>, close: bool) {
    r.Ok? ==> after < r.value.next <= |lines| && (close ==> r.value.close)
  }

  lemma HeadFromAdvances(lines: seq<string>, i: nat, env: Environ, requestProtocol: string, responseProtocol: string,
                         close: bool, last: LastHeader, b64decode: string -> Option<string>)
    ensures Advances(HeadFrom(lines, i, env, requestProtocol, responseProtocol, close, last, b64decode), i, lines, close)
  {
    FoldEndsInside(lines, i, env, last);
    var f := FoldFrom(lines, i, env, last);
    if f.Folded? {
      AfterHeadersKeepsClose(f.env, requestProtocol, responseProtocol, close, b64decode);
    }
  }

  lemma HeadAfterLineAdvances(lines: seq<string>, i: nat, started: Result<(Environ, string), Stop>,
                              requestProtocol: string, close: bool, last: LastHeader,
                              b64decode: string -> Option<string>)
    ensures Advances(HeadAfterLine(lines, i, started, requestProtocol, close, last, b64decode), i, lines, close)
  {
    if started.Ok? {
      HeadFromAdvances(lines, i, started.value.0, requestProtocol, started.value.1, close, last, b64decode);
    }
  }

  /** A head that is read ends after its empty line, a line of the input
      past the request line, and a connection that was to close still is. */
  lemma ReadHeadAdvances(lines: seq<string>, at: nat, base: Environ, close: bool, last: LastHeader,
                         urlparse: string -> Target, unquote: string -> string,
                         b64decode: string -> Option<string>)
    ensures Advances(ReadHead(lines, at, base, close, last, urlparse, unquote, b64decode), at, lines, close)
  {
    if SplitRequestLine(Line(lines, at)).Some? {
      var rl := SplitRequestLine(Line(lines, at)).value;
      HeadAfterLineAdvances(lines, at + 1, RequestEnviron(base, rl, TargetOf(urlparse, rl.uri), unquote),
                            rl.protocol, close, last, b64decode);
    }
  }

  /** The empty line that ends the headers is a line of the input. */
  lemma {:induction false} FoldEndsInside(lines: seq<string>, i: nat, env: Environ, last: LastHeader)
    ensures FoldFrom(lines, i, env, last).Folded? ==>
              i < FoldFrom(lines, i, env, last).next <= |lines|
    decreases |lines| - i
  {
    var line := Line(lines, i);
    if line == CRLF || line == [] {
    } else if line[0] == ' ' || line[0] == '\t' {
      if last.Some? {
        FoldEndsInside(lines, i + 1, Store(env, last.value.0, last.value.1, Strip(line)), last);
      }
    } else if SplitOnce(line, ':').Some? {
      var parts := SplitOnce(line, ':').value;
      var k := Upper(Strip(parts.0));
      FoldEndsInside(lines, i + 1, Store(env, k, EnvName(k), Strip(parts.1)), Some((k, EnvName(k))));
    }
  }
}
