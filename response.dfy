/** The HTTP/1.x response side of WSGIConnection: the header decisions of
    render_headers, the rendered head and a reader for it, simple_response,
    and the chunked transfer coding of section 3.6.1 of RFC 2616 with a
    reference decoder that the framing is proved against. */
module Response {
  import opened Common
  import opened Text

  datatype Header = Header(name: string, value: string)

  /** `hkeys`: the lower-cased header names, in order. */
  function Keys(hs: seq<Header>): (ks: seq<string>)
    ensures |ks| == |hs|
    ensures forall i :: 0 <= i < |hs| ==> ks[i] == Lower(hs[i].name)
  {
    seq(|hs|, i requires 0 <= i < |hs| => Lower(hs[i].name))
  }

  /** `ks.index(k)`: the first position of `k`. */
  function FirstIndex(ks: seq<string>, k: string): (i: nat)
    requires k in ks
    ensures i < |ks| && ks[i] == k
    ensures forall j :: 0 <= j < i ==> ks[j] != k
  {
    if ks[0] == k then 0 else 1 + FirstIndex(ks[1..], k)
  }

  /** `int(status[:3])`; None where Python raises ValueError. */
  function StatusCode(status: string): Option<int> {
    ParseInt(if |status| < 3 then status else status[..3])
  }

  /** 1xx, 204, 205 and 304 responses never carry a message body. */
  predicate NoBody(code: int) {
    code < 200 || code == 204 || code == 205 || code == 304
  }

  /** The value of the first Content-Length header the application gave. */
  function DeclaredLength(hs: seq<Header>): Option<int>
    requires "content-length" in Keys(hs)
  {
    ParseInt(hs[FirstIndex(Keys(hs), "content-length")].value)
  }

  /** What render_headers leaves behind: the full header list, whether it
      switched to the chunked coding, the new close flag, the content length. */
  datatype Plan = Plan(headers: seq<Header>, chunked: bool, close: bool, contentLength: Option<int>)

  function CodingHeader(chunked: bool): seq<Header> {
    if chunked then [Header("Transfer-Encoding", "chunked")] else []
  }

  function ConnectionHeader(keys: seq<string>, protocol: string, close: bool): seq<Header> {
    if "connection" in keys then []
    else if protocol == "HTTP/1.1" then (if close then [Header("Connection", "close")] else [])
    else (if !close then [Header("Connection", "Keep-Alive")] else [])
  }

  function DateHeader(keys: seq<string>, date: string): seq<Header> {
    if "date" in keys then [] else [Header("Date", date)]
  }

  function ServerHeader(keys: seq<string>, software: string): seq<Header> {
    if "server" in keys then [] else [Header("Server", software)]
  }

  /** The headers render_headers appends, in the order it appends them. */
  function AddedHeaders(keys: seq<string>, protocol: string, chunked: bool, close: bool,
                        date: string, software: string): seq<Header>
  {
    CodingHeader(chunked) + ConnectionHeader(keys, protocol, close) + DateHeader(keys, date) + ServerHeader(keys, software)
  }

  /** The decisions of render_headers, in the order the source takes them. */
  function PlanHeaders(status: string, outheaders: seq<Header>, protocol: string, close: bool,
                       contentLength: Option<int>, date: string, software: string): Result<Plan, Fault>
  {
    var keys := Keys(outheaders);
    match StatusCode(status)
    case None => Err(ValueError("invalid literal for int() with base 10"))
    case Some(code) =>
      if "content-length" in keys && DeclaredLength(outheaders).None? then
        Err(ValueError("invalid literal for int() with base 10"))
      else
        var length := if "content-length" in keys then DeclaredLength(outheaders) else contentLength;
        var (chunked, close') :=
          if code == 413 then (false, true)
          else if "content-length" !in keys then
            if NoBody(code) then (false, close)
            else if protocol == "HTTP/1.1" then (true, close)
            else (false, true)
          else (false, close);
        Ok(Plan(outheaders + AddedHeaders(keys, protocol, chunked, close', date, software), chunked, close', length))
  }

  /** render_headers fails exactly when the status code or the application's
      Content-Length is not an integer. */
  lemma PlanFailsOnlyOnBadNumbers(status: string, outheaders: seq<Header>, protocol: string, close: bool,
                                  contentLength: Option<int>, date: string, software: string)
    ensures PlanHeaders(status, outheaders, protocol, close, contentLength, date, software).Err?
        <==> StatusCode(status).None? || ("content-length" in Keys(outheaders) && DeclaredLength(outheaders).None?)
  {
  }

  /** How the body is delimited: status 413 always closes; otherwise a
      response that may carry a body and declares no length is chunked on
      HTTP/1.1 and closes the connection on HTTP/1.0. Whatever the case, a
      response that may carry a body ends in a way the client can find. */
  lemma PlanFraming(status: string, outheaders: seq<Header>, protocol: string, close: bool,
                    contentLength: Option<int>, date: string, software: string)
    requires PlanHeaders(status, outheaders, protocol, close, contentLength, date, software).Ok?
    ensures StatusCode(status).Some?
    ensures var code := StatusCode(status).value;
            var p := PlanHeaders(status, outheaders, protocol, close, contentLength, date, software).value;
            var declared := "content-length" in Keys(outheaders);
            && (p.chunked <==> code != 413 && !declared && !NoBody(code) && protocol == "HTTP/1.1")
            && (p.close <==> close || code == 413 || (!declared && !NoBody(code) && protocol != "HTTP/1.1"))
            && (!NoBody(code) ==> declared || p.chunked || p.close)
            && (p.contentLength == if declared then DeclaredLength(outheaders) else contentLength)
  {
  }

  /** Which headers render_headers appends: Transfer-Encoding when it chose
      chunking, a Connection header only when the application gave none,
      Date and Server only when absent. */
  lemma AddedHeadersChoice(keys: seq<string>, protocol: string, chunked: bool, close: bool,
                           date: string, software: string)
    ensures var added := AddedHeaders(keys, protocol, chunked, close, date, software);
            && (Header("Transfer-Encoding", "chunked") in added <==> chunked)
            && (Header("Connection", "close") in added <==> "connection" !in keys && protocol == "HTTP/1.1" && close)
            && (Header("Connection", "Keep-Alive") in added <==> "connection" !in keys && protocol != "HTTP/1.1" && !close)
            && (Header("Date", date) in added <==> "date" !in keys)
            && (Header("Server", software) in added <==> "server" !in keys)
  {
    var a, b, c, d := CodingHeader(chunked), ConnectionHeader(keys, protocol, close),
                      DateHeader(keys, date), ServerHeader(keys, software);
    var te, cc, ka, dt, sv := Header("Transfer-Encoding", "chunked"), Header("Connection", "close"),
                              Header("Connection", "Keep-Alive"), Header("Date", date), Header("Server", software);
    assert |"Transfer-Encoding"| == 17 && |"Connection"| == 10 && |"Date"| == 4 && |"Server"| == 6;
    assert "close" != "Keep-Alive" by { assert |"close"| == 5 && |"Keep-Alive"| == 10; }
    assert te !in b && te !in c && te !in d;
    assert cc !in a && cc !in c && cc !in d;
    assert ka !in a && ka !in c && ka !in d;
    assert dt !in a && dt !in b && dt !in d;
    assert sv !in a && sv !in b && sv !in c;
    assert AddedHeaders(keys, protocol, chunked, close, date, software) == a + b + c + d;
  }

  /** render_headers keeps the application's headers, in order, in front of
      the ones it adds (the choice of which is AddedHeadersChoice). */
  lemma PlanAddedHeaders(status: string, outheaders: seq<Header>, protocol: string, close: bool,
                         contentLength: Option<int>, date: string, software: string)
    requires PlanHeaders(status, outheaders, protocol, close, contentLength, date, software).Ok?
    ensures var p := PlanHeaders(status, outheaders, protocol, close, contentLength, date, software).value;
            && |outheaders| <= |p.headers| && p.headers[..|outheaders|] == outheaders
            && p.headers[|outheaders|..] == AddedHeaders(Keys(outheaders), protocol, p.chunked, p.close, date, software)
  {
  }

  /** Lower-casing the names of a list and of its extension agree on the prefix. */
  lemma KeysOfPrefix(hs: seq<Header>, more: seq<Header>, i: nat)
    requires i < |hs|
    ensures Keys(hs + more)[i] == Keys(hs)[i]
  {
    assert (hs + more)[i] == hs[i];
  }

  /** Whatever render_headers adds, a header list extended by it names a Date
      and a Server header. */
  lemma AddedHeadersDateAndServe(outheaders: seq<Header>, protocol: string, chunked: bool, close: bool,
                                 date: string, software: string)
    ensures var all := outheaders + AddedHeaders(Keys(outheaders), protocol, chunked, close, date, software);
            "date" in Keys(all) && "server" in Keys(all)
  {
    var keys := Keys(outheaders);
    var a, b, c, d := CodingHeader(chunked), ConnectionHeader(keys, protocol, close),
                      DateHeader(keys, date), ServerHeader(keys, software);
    var all := outheaders + (a + b + c + d);
    assert all == outheaders + AddedHeaders(keys, protocol, chunked, close, date, software);
    var n := |outheaders|;
    assert Lower("Date") == "date";
    assert Lower("Server") == "server";
    if "date" !in keys {
      assert all[n + |a| + |b|] == Header("Date", date);
      assert Keys(all)[n + |a| + |b|] == "date";
    } else {
      var i :| 0 <= i < |keys| && keys[i] == "date";
      KeysOfPrefix(outheaders, a + b + c + d, i);
    }
    if "server" !in keys {
      assert all[n + |a| + |b| + |c|] == Header("Server", software);
      assert Keys(all)[n + |a| + |b| + |c|] == "server";
    } else {
      var i :| 0 <= i < |keys| && keys[i] == "server";
      KeysOfPrefix(outheaders, a + b + c + d, i);
    }
  }

  /** Every rendered response carries a Date and a Server header. */
  lemma PlanAlwaysDatedAndServed(status: string, outheaders: seq<Header>, protocol: string, close: bool,
                                 contentLength: Option<int>, date: string, software: string)
    requires PlanHeaders(status, outheaders, protocol, close, contentLength, date, software).Ok?
    ensures var p := PlanHeaders(status, outheaders, protocol, close, contentLength, date, software).value;
            "date" in Keys(p.headers) && "server" in Keys(p.headers)
  {
    var p := PlanHeaders(status, outheaders, protocol, close, contentLength, date, software).value;
    PlanAddedHeaders(status, outheaders, protocol, close, contentLength, date, software);
    AddedHeadersDateAndServe(outheaders, protocol, p.chunked, p.close, date, software);
    assert p.headers == outheaders + p.headers[|outheaders|..];
  }

  // ---------------------------------------------------------------------
  // The response head on the wire, and a reader for it.

  function HeaderLine(h: Header): string {
    h.name + ": " + h.value + CRLF
  }

  function HeaderBlock(hs: seq<Header>): string {
    if hs == [] then [] else HeaderLine(hs[0]) + HeaderBlock(hs[1..])
  }

  /** The status line, one `k: v` line per header, then an empty line. */
  function RenderHead(protocol: string, status: string, hs: seq<Header>): string {
    protocol + " " + status + CRLF + HeaderBlock(hs) + CRLF
  }

  /** CR LF starts at position `j` of `s`. */
  predicate CRLFAt(s: string, j: int) {
    0 <= j && j + 1 < |s| && s[j] == '\r' && s[j + 1] == '\n'
  }

  /** The first position of CR LF in `s`. */
  function FindCRLF(s: string): (r: Option<nat>)
    ensures r.Some? ==> r.value + 2 <= |s| && CRLFAt(s, r.value)
    ensures r.Some? ==> forall j :: 0 <= j < r.value ==> !CRLFAt(s, j)
    ensures r.None? ==> forall j :: 0 <= j < |s| ==> !CRLFAt(s, j)
  {
    if |s| < 2 then None
    else if s[0] == '\r' && s[1] == '\n' then Some(0)
    else
      assert forall j :: 1 <= j < |s| ==> CRLFAt(s, j) == CRLFAt(s[1..], j - 1);
      match FindCRLF(s[1..])
      case None => None
      case Some(i) => Some(i + 1)
  }

  lemma {:induction false} FindCRLFAfter(a: string, b: string)
    requires '\r' !in a
    ensures FindCRLF(a + CRLF + b) == Some(|a|)
  {
    if a != [] {
      assert (a + CRLF + b)[1..] == a[1..] + CRLF + b;
      FindCRLFAfter(a[1..], b);
    }
  }

  /** Reads one `k: v` line: the name up to the first colon, the value after
      the space that must follow it. */
  function ParseHeaderLine(line: string): Option<Header> {
    match SplitOnce(line, ':')
    case None => None
    case Some(parts) =>
      if parts.1 == [] || parts.1[0] != ' ' then None else Some(Header(parts.0, parts.1[1..]))
  }

  /** Reads `k: v` lines up to the empty line that ends the head. */
  function ParseHeaderBlock(s: string): Option<seq<Header>>
    decreases |s|
  {
    match FindCRLF(s)
    case None => None
    case Some(i) =>
      if i == 0 then (if s == CRLF then Some([]) else None)
      else match ParseHeaderLine(s[..i])
        case None => None
        case Some(h) =>
          match ParseHeaderBlock(s[i + 2..])
          case None => None
          case Some(hs) => Some([h] + hs)
  }

  /** Reads a response head: the status line and the headers. */
  function ParseHead(s: string): Option<(string, seq<Header>)> {
    match FindCRLF(s)
    case None => None
    case Some(i) =>
      match ParseHeaderBlock(s[i + 2..])
      case None => None
      case Some(hs) => Some((s[..i], hs))
  }

  /** A header survives the trip through the wire format when its name has
      no colon and neither part holds a carriage return. */
  predicate WellFormed(h: Header) {
    ':' !in h.name && '\r' !in h.name && '\r' !in h.value
  }

  lemma ReadHeaderLine(h: Header)
    requires WellFormed(h)
    ensures ParseHeaderLine(h.name + ": " + h.value) == Some(h)
  {
    assert h.name + ": " + h.value == h.name + [':'] + (" " + h.value);
    SplitOnceAt(h.name, ':', " " + h.value);
  }

  /** One well-formed header line is read back as that header. */
  lemma ParseOneHeader(h: Header, tail: string)
    requires WellFormed(h)
    ensures ParseHeaderBlock(HeaderLine(h) + tail)
         == match ParseHeaderBlock(tail)
            case None => None
            case Some(hs) => Some([h] + hs)
  {
    var line := h.name + ": " + h.value;
    var s := HeaderLine(h) + tail;
    assert s == line + CRLF + tail;
    assert '\r' !in ": ";
    FindCRLFAfter(line, tail);
    assert s[..|line|] == line;
    assert s[|line| + 2..] == tail;
    ReadHeaderLine(h);
  }

  lemma {:induction false} HeaderBlockRoundTrip(hs: seq<Header>)
    requires forall i :: 0 <= i < |hs| ==> WellFormed(hs[i])
    ensures ParseHeaderBlock(HeaderBlock(hs) + CRLF) == Some(hs)
  {
    if hs != [] {
      var rest := HeaderBlock(hs[1..]) + CRLF;
      assert HeaderBlock(hs) + CRLF == HeaderLine(hs[0]) + rest;
      assert WellFormed(hs[0]);
      ParseOneHeader(hs[0], rest);
      HeaderBlockRoundTrip(hs[1..]);
      assert [hs[0]] + hs[1..] == hs;
    }
  }

  /** Reading back the head render_headers writes gives the status line and
      the very headers, in order, provided none of them breaks the format. */
  lemma HeadRoundTrip(protocol: string, status: string, hs: seq<Header>)
    requires '\r' !in protocol && '\r' !in status
    requires forall i :: 0 <= i < |hs| ==> WellFormed(hs[i])
    ensures ParseHead(RenderHead(protocol, status, hs)) == Some((protocol + " " + status, hs))
  {
    var line := protocol + " " + status;
    var rest := HeaderBlock(hs) + CRLF;
    assert RenderHead(protocol, status, hs) == line + CRLF + rest;
    assert '\r' !in " ";
    FindCRLFAfter(line, rest);
    assert (line + CRLF + rest)[..|line|] == line;
    assert (line + CRLF + rest)[|line| + 2..] == rest;
    HeaderBlockRoundTrip(hs);
  }

  // ---------------------------------------------------------------------
  // simple_response

  /** `status[:3] == "413" and response_protocol == 'HTTP/1.1'` */
  predicate SimpleCloses(status: string, protocol: string) {
    StartsWith(status, "413") && protocol == "HTTP/1.1"
  }

  /** The buffer simple_response joins, one parenthesised piece per entry of
      its list: status line, Content-Length, Content-Type, the optional
      Connection: close, the blank line and the message. */
  function SimpleResponseBytes(serverProtocol: string, protocol: string, status: string, msg: string): string {
    (serverProtocol + " " + status + CRLF)
      + ("Content-Length: " + Decimal(|msg|) + CRLF)
      + ("Content-Type: text/plain" + CRLF)
      + (if SimpleCloses(status, protocol) then "Connection: close" + CRLF else "")
      + CRLF
      + msg
  }

  /** The headers a simple response declares. */
  function SimpleHeaders(protocol: string, status: string, msg: string): seq<Header> {
    [Header("Content-Length", Decimal(|msg|)), Header("Content-Type", "text/plain")]
      + (if SimpleCloses(status, protocol) then [Header("Connection", "close")] else [])
  }

  lemma HeaderBlockCons(h: Header, rest: seq<Header>)
    ensures HeaderBlock([h] + rest) == HeaderLine(h) + HeaderBlock(rest)
  {
    assert ([h] + rest)[1..] == rest;
  }

  lemma ContentLengthLine(d: string)
    ensures HeaderLine(Header("Content-Length", d)) == "Content-Length: " + d + CRLF
  {
    assert "Content-Length" + ": " == "Content-Length: ";
  }

  lemma ContentTypeLine()
    ensures HeaderLine(Header("Content-Type", "text/plain")) == "Content-Type: text/plain" + CRLF
  {
    assert "Content-Type" + ": " + "text/plain" == "Content-Type: text/plain";
  }

  lemma CloseLine()
    ensures HeaderBlock([Header("Connection", "close")]) == "Connection: close" + CRLF
  {
    assert "Connection" + ": " + "close" == "Connection: close";
    HeaderBlockCons(Header("Connection", "close"), []);
    assert [Header("Connection", "close")] + [] == [Header("Connection", "close")];
  }

  lemma Regroup(a: string, b: string, c: string, d: string, e: string, f: string)
    ensures a + b + c + d + e + f == a + (b + (c + d)) + e + f
  {
  }

  /** simple_response's buffer is the head of its own headers, then the message. */
  lemma SimpleResponseIsHead(serverProtocol: string, protocol: string, status: string, msg: string)
    ensures SimpleResponseBytes(serverProtocol, protocol, status, msg)
         == RenderHead(serverProtocol, status, SimpleHeaders(protocol, status, msg)) + msg
  {
    var first := serverProtocol + " " + status + CRLF;
    var h1, h2 := Header("Content-Length", Decimal(|msg|)), Header("Content-Type", "text/plain");
    var closing := if SimpleCloses(status, protocol) then [Header("Connection", "close")] else [];
    var l1, l2 := HeaderLine(h1), HeaderLine(h2);
    var l3 := HeaderBlock(closing);
    ContentLengthLine(Decimal(|msg|));
    ContentTypeLine();
    if closing != [] { CloseLine(); }
    assert SimpleHeaders(protocol, status, msg) == [h1] + ([h2] + closing);
    HeaderBlockCons(h1, [h2] + closing);
    HeaderBlockCons(h2, closing);
    Regroup(first, l1, l2, l3, CRLF, msg);
  }

  lemma DecimalHasNoCR(n: nat)
    ensures '\r' !in Decimal(n)
  {
    var d := Decimal(n);
    forall k | 0 <= k < |d| ensures d[k] != '\r' { assert IsDigit(d[k]); }
  }

  lemma ContentLengthWellFormed(n: nat)
    ensures WellFormed(Header("Content-Length", Decimal(n)))
  {
    DecimalHasNoCR(n);
  }

  lemma ContentTypeWellFormed()
    ensures WellFormed(Header("Content-Type", "text/plain"))
  {
  }

  lemma CloseWellFormed()
    ensures WellFormed(Header("Connection", "close"))
  {
  }

  lemma SimpleHeadersWellFormed(protocol: string, status: string, msg: string)
    ensures forall i :: 0 <= i < |SimpleHeaders(protocol, status, msg)| ==> WellFormed(SimpleHeaders(protocol, status, msg)[i])
  {
    var h1, h2, h3 := Header("Content-Length", Decimal(|msg|)), Header("Content-Type", "text/plain"), Header("Connection", "close");
    ContentLengthWellFormed(|msg|);
    ContentTypeWellFormed();
    CloseWellFormed();
    var hs := SimpleHeaders(protocol, status, msg);
    forall i | 0 <= i < |hs| ensures WellFormed(hs[i]) {
      assert hs[i] == h1 || hs[i] == h2 || hs[i] == h3;
    }
  }

  lemma SplitAfter(a: string, b: string)
    ensures (a + b)[..|a|] == a && (a + b)[|a|..] == b
  {
  }

  /** A simple response is a well-formed head followed by the message, and
      its Content-Length reads back as the message's length. */
  lemma SimpleResponseIsWellFramed(serverProtocol: string, protocol: string, status: string, msg: string)
    requires '\r' !in serverProtocol && '\r' !in status
    ensures var bytes := SimpleResponseBytes(serverProtocol, protocol, status, msg);
            var hs := SimpleHeaders(protocol, status, msg);
            && |msg| <= |bytes| && bytes[|bytes| - |msg|..] == msg
            && ParseHead(bytes[..|bytes| - |msg|]) == Some((serverProtocol + " " + status, hs))
            && ParseInt(hs[0].value) == Some(|msg|)
  {
    var hs := SimpleHeaders(protocol, status, msg);
    var head := RenderHead(serverProtocol, status, hs);
    SimpleResponseIsHead(serverProtocol, protocol, status, msg);
    SplitAfter(head, msg);
    SimpleHeadersWellFormed(protocol, status, msg);
    HeadRoundTrip(serverProtocol, status, hs);
    ParseIntReadsDecimal(|msg|);
  }

  // ---------------------------------------------------------------------
  // The chunked transfer coding (section 3.6.1 of RFC 2616).

  /** `hex(len(chunk))[2:] + "\r\n" + chunk + "\r\n"`; an empty chunk is never framed. */
  function Frame(chunk: string): string {
    if chunk == [] then [] else Hex(|chunk|) + CRLF + chunk + CRLF
  }

  /** What ends every chunked response. */
  const LastChunk: string := "0\r\n\r\n"

  function FrameAll(chunks: seq<string>): string {
    if chunks == [] then [] else Frame(chunks[0]) + FrameAll(chunks[1..])
  }

  /** A reference decoder: a size line in hexadecimal, that many bytes, CR LF,
      repeated until the zero-size chunk, after which only CR LF may follow
      (no chunk extensions, no trailers). */
  function DecodeChunked(s: string): Option<string>
    decreases |s|
  {
    match FindCRLF(s)
    case None => None
    case Some(i) =>
      match ParseHex(s[..i])
      case None => None
      case Some(n) =>
        var rest := s[i + 2..];
        if n == 0 then (if rest == CRLF then Some([]) else None)
        else if |rest| < n + 2 || rest[n..n + 2] != CRLF then None
        else match DecodeChunked(rest[n + 2..])
          case None => None
          case Some(tail) => Some(rest[..n] + tail)
  }

  lemma HexHasNoCR(n: nat)
    ensures '\r' !in Hex(n)
  {
    var h := Hex(n);
    forall k | 0 <= k < |h| ensures h[k] != '\r' {
      assert IsHexDigit(h[k]);
    }
  }

  /** How the reader goes past one chunk of size `n` whose size line ends at `i`. */
  lemma DecodeChunkStep(s: string, i: nat, n: nat, body: string, tail: string)
    requires FindCRLF(s) == Some(i) && ParseHex(s[..i]) == Some(n) && n != 0
    requires s[i + 2..] == body + CRLF + tail && |body| == n
    ensures DecodeChunked(s)
         == match DecodeChunked(tail)
            case None => None
            case Some(t) => Some(body + t)
  {
    var rest := s[i + 2..];
    assert rest[..n] == body && rest[n..n + 2] == CRLF && rest[n + 2..] == tail;
  }

  /** A non-empty chunk's frame is read back as the chunk, then decoding goes on. */
  lemma DecodeOneChunk(c: string, tail: string)
    requires c != []
    ensures DecodeChunked(Frame(c) + tail)
         == match DecodeChunked(tail)
            case None => None
            case Some(t) => Some(c + t)
  {
    var h := Hex(|c|);
    var s := Frame(c) + tail;
    assert s == h + CRLF + (c + CRLF + tail);
    HexHasNoCR(|c|);
    FindCRLFAfter(h, c + CRLF + tail);
    assert s[..|h|] == h;
    HexRoundTrip(|c|);
    assert s[|h| + 2..] == c + CRLF + tail;
    DecodeChunkStep(s, |h|, |c|, c, tail);
  }

  /** The last chunk alone decodes to the empty body. */
  lemma DecodeLastChunk()
    ensures DecodeChunked(LastChunk) == Some([])
  {
    assert LastChunk == "0" + CRLF + CRLF;
    FindCRLFAfter("0", CRLF);
    assert LastChunk[..1] == "0";
    assert HexNumber("0") == HexNumber("0"[..0]) * 16 + HexValue('0');
    assert LastChunk[3..] == CRLF;
  }

  /** A frame in front of a decodable stream adds its chunk to the body. */
  lemma DecodeFramed(c: string, tail: string, t: string)
    requires DecodeChunked(tail) == Some(t)
    ensures DecodeChunked(Frame(c) + tail) == Some(c + t)
  {
    if c != [] {
      DecodeOneChunk(c, tail);
    } else {
      assert Frame(c) + tail == tail;
      assert c + t == t;
    }
  }

  lemma FrameAllCons(chunks: seq<string>)
    requires chunks != []
    ensures FrameAll(chunks) + LastChunk == Frame(chunks[0]) + (FrameAll(chunks[1..]) + LastChunk)
  {
    var f, r := Frame(chunks[0]), FrameAll(chunks[1..]);
    assert FrameAll(chunks) == f + r;
  }

  /** Whatever the application yields, the framed stream followed by the last
      chunk decodes to the concatenation of its chunks. */
  lemma {:induction false} ChunkedRoundTrip(chunks: seq<string>)
    ensures DecodeChunked(FrameAll(chunks) + LastChunk) == Some(Concat(chunks))
  {
    if chunks == [] {
      assert FrameAll(chunks) + LastChunk == LastChunk;
      DecodeLastChunk();
    } else {
      ChunkedRoundTrip(chunks[1..]);
      FrameAllCons(chunks);
      DecodeFramed(chunks[0], FrameAll(chunks[1..]) + LastChunk, Concat(chunks[1..]));
    }
  }

  // ---------------------------------------------------------------------
  // The file-wrapper branch (wsgi.py:431-443).

  /** As written at wsgi.py:433: `hex(int(fsize - offset)) + "\r\n"` keeps
      Python's "0x" prefix in the chunk-size line. */
  function FileSizeLineAsWritten(size: nat): string {
    "0x" + Hex(size) + CRLF
  }

  /** A size line with the "0x" prefix is not an RFC 2616 chunk-size line:
      the reference decoder refuses the body, whatever the file holds. */
  lemma FileChunkAsWrittenUndecodable(data: string, rest: string)
    ensures DecodeChunked(FileSizeLineAsWritten(|data|) + data + CRLF + rest) == None
  {
    var line := "0x" + Hex(|data|);
    var s := FileSizeLineAsWritten(|data|) + data + CRLF + rest;
    assert s == line + CRLF + (data + CRLF + rest);
    HexHasNoCR(|data|);
    assert '\r' !in "0x";
    FindCRLFAfter(line, data + CRLF + rest);
    assert s[..|line|] == line;
    assert !IsHexDigit(line[1]);
  }

  /** Corrected: the file's remaining bytes framed as one chunk like any other
      (size line, the bytes sendfile transfers, CR LF), nothing for an empty file. */
  function FileChunkPayloads(data: string): seq<string> {
    if data == [] then [] else [Hex(|data|) + CRLF, data, CRLF]
  }

  /** The corrected file framing is exactly a chunk frame, so a chunked
      response carrying a file decodes to the file's bytes. */
  lemma FileChunkRoundTrip(data: string)
    ensures Concat(FileChunkPayloads(data)) == Frame(data)
    ensures DecodeChunked(Concat(FileChunkPayloads(data)) + LastChunk) == Some(data)
  {
    FileChunkIsFrame(data);
    OneChunkRoundTrip(data);
  }

  lemma FileChunkIsFrame(data: string)
    ensures Concat(FileChunkPayloads(data)) == Frame(data)
  {
    if data != [] {
      var ps := FileChunkPayloads(data);
      assert ps[1..][1..][1..] == [];
      assert Concat(ps[1..][1..]) == CRLF;
      assert Concat(ps[1..]) == data + CRLF;
      assert Concat(ps) == (Hex(|data|) + CRLF) + (data + CRLF);
    }
  }

  lemma OneChunkRoundTrip(data: string)
    ensures DecodeChunked(Frame(data) + LastChunk) == Some(data)
  {
    ChunkedRoundTrip([data]);
    assert FrameAll([data]) == Frame(data) by { assert [data][1..] == []; }
    assert Concat([data]) == data by { assert [data][1..] == []; }
  }
}
