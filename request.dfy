/** The request side of WSGIConnection.run: skipping blank lines before the
    request line, splitting the request line, unquoting the path around
    encoded slashes, negotiating the protocol version, folding the header
    lines into the environ, the keep-alive decision, Basic credentials, the
    rejection of transfer codings and the proxy's content length. The
    connection's input is a sequence of lines read one at a time; reading
    past its end gives "" as `readline` does at end of file. */
module Request {
  import opened Common
  import opened Text

  /** The string-valued part of the WSGI environ. */
  type Environ = map<string, string>

  /** `environ.get(key, "")` */
  function Get(env: Environ, key: string): string {
    if key in env then env[key] else ""
  }

  /** `readline()`: the line at `i`, or "" past the end of the input. */
  function Line(lines: seq<string>, i: nat): string {
    if i < |lines| then lines[i] else ""
  }

  // ---------------------------------------------------------------------
  // Blank lines before the request line (section 4.1 of RFC 2616).

  /** How many "\r\n" lines follow from position `i`. */
  function Blanks(lines: seq<string>, i: nat): (n: nat)
    ensures forall j :: i <= j < i + n ==> Line(lines, j) == CRLF
    ensures Line(lines, i + n) != CRLF
    decreases |lines| - i
  {
    if Line(lines, i) == CRLF then 1 + Blanks(lines, i + 1) else 0
  }

  /** Blank lines already read can be counted off the front. */
  lemma {:induction false} BlanksSkip(lines: seq<string>, i: nat, k: nat)
    requires forall j :: i <= j < i + k ==> Line(lines, j) == CRLF
    ensures Blanks(lines, i) == k + Blanks(lines, i + k)
    decreases k
  {
    if k > 0 {
      BlanksSkip(lines, i + 1, k - 1);
    }
  }

  /** Reads the request line from position `start`. Up to four blank lines
      before it are ignored; after a fifth the connection is given up (None).
      `next` is the position after the last line read. */
  method ReadRequestLine(lines: seq<string>, start: nat) returns (line: Option<string>, next: nat)
    ensures line.Some? <==> Blanks(lines, start) <= 4
    ensures line.Some? ==> line.value == Line(lines, start + Blanks(lines, start))
                           && line.value != CRLF
                           && next == start + Blanks(lines, start) + 1
    ensures line.None? ==> next == start + 6
  {
    var requestLine := Line(lines, start);
    next := start + 1;
    if requestLine == CRLF {
      var tolerance := 5;
      while tolerance != 0 && requestLine == CRLF
        invariant 0 <= tolerance <= 5
        invariant next == start + 6 - tolerance
        invariant requestLine == Line(lines, next - 1)
        invariant forall j :: start <= j < next - 1 ==> Line(lines, j) == CRLF
      {
        requestLine := Line(lines, next);
        next := next + 1;
        tolerance := tolerance - 1;
      }
      if tolerance == 0 {
        BlanksSkip(lines, start, 5);
        return None, next;
      }
    }
    BlanksSkip(lines, start, next - 1 - start);
    line := Some(requestLine);
  }

  // ---------------------------------------------------------------------
  // The request line.

  datatype RequestLine = RequestLine(requestMethod: string, uri: string, protocol: string)

  /** `request_line.strip().split(" ", 2)` unpacked into three names; None
      where there are fewer than three parts (ValueError). The protocol part
      keeps any further spaces. */
  function SplitRequestLine(line: string): Option<RequestLine> {
    match SplitOnce(Strip(line), ' ')
    case None => None
    case Some(first) =>
      match SplitOnce(first.1, ' ')
      case None => None
      case Some(second) => Some(RequestLine(first.0, second.0, second.1))
  }

  /** The parts are the stripped line's text before the first space, between
      the first and the second, and after the second. */
  lemma SplitRequestLineParts(line: string)
    ensures var r := SplitRequestLine(line);
            r.Some? ==> && ' ' !in r.value.requestMethod && ' ' !in r.value.uri
                        && Strip(line) == r.value.requestMethod + " " + r.value.uri + " " + r.value.protocol
    ensures SplitRequestLine(line).None? <==> (' ' !in Strip(line) || ' ' !in SplitOnce(Strip(line), ' ').value.1)
  {
    var first := SplitOnce(Strip(line), ' ');
    if first.Some? {
      var second := SplitOnce(first.value.1, ' ');
      if second.Some? {
        var m, u, p := first.value.0, second.value.0, second.value.1;
        assert " " == [' '];
        assert first.value.1 == u + " " + p;
        assert Strip(line) == m + " " + (u + " " + p);
        assert m + " " + (u + " " + p) == m + " " + u + " " + p;
      }
    }
  }

  /** A line ending in CR LF whose text has no surrounding whitespace strips
      to that text. */
  lemma StripLine(s: string)
    requires s != [] && !IsSpace(s[0]) && !IsSpace(s[|s| - 1])
    ensures Strip(s + CRLF) == s
  {
    StripPadding([], s, CRLF);
    assert [] + s + CRLF == s + CRLF;
    StripUnchanged(s);
  }

  /** The three parts of a stripped request line. */
  lemma SplitThree(m: string, u: string, p: string)
    requires ' ' !in m && ' ' !in u
    ensures var first := SplitOnce(m + " " + u + " " + p, ' ');
            first == Some((m, u + " " + p)) && SplitOnce(first.value.1, ' ') == Some((u, p))
  {
    assert m + " " + u + " " + p == m + [' '] + (u + " " + p);
    SplitOnceAt(m, ' ', u + " " + p);
    assert u + " " + p == u + [' '] + p;
    SplitOnceAt(u, ' ', p);
  }

  /** A request line as a client writes it is read back into its parts. */
  lemma RequestLineRoundTrip(m: string, u: string, p: string)
    requires m != [] && !IsSpace(m[0]) && ' ' !in m && ' ' !in u
    requires p != [] && !IsSpace(p[|p| - 1])
    ensures SplitRequestLine(m + " " + u + " " + p + CRLF) == Some(RequestLine(m, u, p))
  {
    var s := m + " " + u + " " + p;
    assert s[0] == m[0] && s[|s| - 1] == p[|p| - 1];
    StripLine(s);
    SplitThree(m, u, p);
  }

  // ---------------------------------------------------------------------
  // Unquoting the path without decoding encoded slashes.

  /** An encoded slash, `%2F` in either case, starts at `i`. */
  predicate QuotedSlashAt(s: string, i: nat) {
    i + 3 <= |s| && s[i] == '%' && s[i + 1] == '2' && (s[i + 2] == 'F' || s[i + 2] == 'f')
  }

  predicate NoQuotedSlash(s: string) {
    forall i: nat :: i < |s| ==> !QuotedSlashAt(s, i)
  }

  /** `quoted_slash.split(s)`: the pieces between encoded slashes. */
  function SplitQuotedSlash(s: string): (r: seq<string>)
    ensures |r| >= 1
    ensures StartsWith(s, r[0])
    ensures forall k :: 0 <= k < |r| ==> NoQuotedSlash(r[k])
    decreases |s|
  {
    if s == [] then [[]]
    else if QuotedSlashAt(s, 0) then [[]] + SplitQuotedSlash(s[3..])
    else
      var rest := SplitQuotedSlash(s[1..]);
      var head := [s[0]] + rest[0];
      assert forall i: nat :: 0 < i < |head| ==> (QuotedSlashAt(head, i) ==> QuotedSlashAt(rest[0], i - 1));
      assert |head| >= 3 ==> head[..3] == s[..3];
      [head] + rest[1..]
  }

  /** `s` with every encoded slash written as upper-case `%2F`. */
  function UpperSlashes(s: string): string
    decreases |s|
  {
    if s == [] then []
    else if QuotedSlashAt(s, 0) then "%2F" + UpperSlashes(s[3..])
    else [s[0]] + UpperSlashes(s[1..])
  }

  /** `"%2F".join(unquote(x) for x in quoted_slash.split(path))` */
  function UnquotePath(path: string, unquote: string -> string): string {
    Join("%2F", Unquoted(SplitQuotedSlash(path), unquote))
  }

  function Unquoted(atoms: seq<string>, unquote: string -> string): (r: seq<string>)
    ensures |r| == |atoms|
    ensures forall k :: 0 <= k < |atoms| ==> r[k] == unquote(atoms[k])
  {
    seq(|atoms|, k requires 0 <= k < |atoms| => unquote(atoms[k]))
  }

  /** Joining the pieces again gives back the path: nothing but the case of
      an encoded slash changes, so no encoded slash is lost or added. */
  lemma {:induction false} QuotedSlashSplitJoin(s: string)
    ensures Join("%2F", SplitQuotedSlash(s)) == UpperSlashes(s)
    decreases |s|
  {
    if s == [] {
    } else if QuotedSlashAt(s, 0) {
      var rest := SplitQuotedSlash(s[3..]);
      QuotedSlashSplitJoin(s[3..]);
      assert ([[]] + rest)[1..] == rest;
    } else {
      var rest := SplitQuotedSlash(s[1..]);
      QuotedSlashSplitJoin(s[1..]);
      var r := [[s[0]] + rest[0]] + rest[1..];
      assert r == SplitQuotedSlash(s);
      if |rest| > 1 {
        assert r[1..] == rest[1..];
        assert Join("%2F", rest) == rest[0] + "%2F" + Join("%2F", rest[1..]);
      }
    }
  }

  /** With an unquote that decodes nothing the path comes out as it came in
      (up to the case of `%2F`); a path without encoded slashes is one piece
      and is simply unquoted. */
  lemma UnquotePathKeepsSlashes(path: string, unquote: string -> string)
    ensures (forall x :: unquote(x) == x) ==> UnquotePath(path, unquote) == UpperSlashes(path)
    ensures NoQuotedSlash(path) ==> UnquotePath(path, unquote) == unquote(path)
  {
    var atoms := SplitQuotedSlash(path);
    if forall x :: unquote(x) == x {
      assert Unquoted(atoms, unquote) == atoms;
      QuotedSlashSplitJoin(path);
    }
    if NoQuotedSlash(path) {
      OnePiece(path);
    }
  }

  lemma {:induction false} OnePiece(s: string)
    requires NoQuotedSlash(s)
    ensures SplitQuotedSlash(s) == [s]
    decreases |s|
  {
    if s != [] {
      assert !QuotedSlashAt(s, 0);
      assert forall i: nat :: i < |s[1..]| ==> (QuotedSlashAt(s[1..], i) ==> QuotedSlashAt(s, i + 1));
      OnePiece(s[1..]);
      assert [s[0]] + s[1..] == s;
    }
  }

  // ---------------------------------------------------------------------
  // Protocol version negotiation (section 10.5.6 of RFC 2616).

  /** `int(c)` for one character is its value as a decimal digit. */
  lemma ParseIntOneChar(c: char)
    ensures ParseInt([c]) == if IsDigit(c) then Some(c as int - 48) else None
  {
    if IsSpace(c) {
      assert TrimLeft([c]) == TrimLeft([]) == [];
      assert Strip([c]) == [];
      assert ParseDecimal([]) == None;
    } else {
      StripUnchanged([c]);
      assert Strip([c]) == [c];
      if IsDigit(c) {
        assert [c][..0] == [];
        assert DecimalNumber([c]) == DecimalNumber([]) * 10 + (c as int - 48);
        assert ParseDecimal([c]) == Some(c as int - 48);
      } else if c == '-' || c == '+' {
        assert [c][1..] == [];
        assert ParseDecimal([]) == None;
      } else {
        assert !IsDigit([c][0]);
        assert ParseDecimal([c]) == None;
      }
    }
  }

  /** `int(p[5]), int(p[7])`: None where `p` is too short (IndexError) or
      either character is not a digit (ValueError). */
  function VersionOf(p: string): (r: Option<(int, int)>)
    ensures r.Some? ==> 0 <= r.value.0 < 10 && 0 <= r.value.1 < 10
    ensures r.Some? <==> |p| >= 8 && IsDigit(p[5]) && IsDigit(p[7])
    ensures r.Some? ==> r.value == (p[5] as int - 48, p[7] as int - 48)
  {
    if |p| < 8 then None
    else
      ParseIntOneChar(p[5]);
      ParseIntOneChar(p[7]);
      match (ParseInt([p[5]]), ParseInt([p[7]]))
      case (Some(major), Some(minor)) => Some((major, minor))
      case _ => None
  }

  /** Python's order on pairs of integers. */
  function MinVersion(a: (int, int), b: (int, int)): (int, int) {
    if a.0 < b.0 || (a.0 == b.0 && a.1 <= b.1) then a else b
  }

  /** `"HTTP/%s.%s" % v` for single-digit numbers. */
  function ProtocolName(v: (int, int)): string
    requires 0 <= v.0 < 10 && 0 <= v.1 < 10
  {
    "HTTP/" + Decimal(v.0) + "." + Decimal(v.1)
  }

  datatype Negotiation =
    | Unreadable                       // int() failed: an internal error
    | Unsupported                      // 505 HTTP Version Not Supported
    | Agreed(responseProtocol: string) // the feature set the response may use

  function Negotiate(requestProtocol: string, serverProtocol: string): Negotiation {
    match (VersionOf(requestProtocol), VersionOf(serverProtocol))
    case (Some(rp), Some(sp)) =>
      if sp.0 != rp.0 then Unsupported else Agreed(ProtocolName(MinVersion(rp, sp)))
    case _ => Unreadable
  }

  /** A protocol name written by the server reads back as its version. */
  lemma VersionRoundTrip(v: (int, int))
    requires 0 <= v.0 < 10 && 0 <= v.1 < 10
    ensures VersionOf(ProtocolName(v)) == Some(v)
  {
    var p := ProtocolName(v);
    assert p[5] == (48 + v.0) as char && p[7] == (48 + v.1) as char;
  }

  /** 505 exactly when both versions read and the major numbers differ;
      otherwise the response uses the same major version and the smaller of
      the two minor versions, so it never promises a feature the client or
      the server lacks. */
  lemma NegotiateRule(requestProtocol: string, serverProtocol: string)
    ensures var rv := VersionOf(requestProtocol);
            var sv := VersionOf(serverProtocol);
            && (Negotiate(requestProtocol, serverProtocol) == Unreadable <==> rv.None? || sv.None?)
            && (Negotiate(requestProtocol, serverProtocol) == Unsupported <==>
                  rv.Some? && sv.Some? && rv.value.0 != sv.value.0)
    ensures Negotiate(requestProtocol, serverProtocol).Agreed? ==>
              var rv := VersionOf(requestProtocol).value;
              var sv := VersionOf(serverProtocol).value;
              var agreed := VersionOf(Negotiate(requestProtocol, serverProtocol).responseProtocol);
              && rv.0 == sv.0
              && agreed == Some((rv.0, if rv.1 <= sv.1 then rv.1 else sv.1))
  {
    var rv := VersionOf(requestProtocol);
    var sv := VersionOf(serverProtocol);
    if rv.Some? && sv.Some? && rv.value.0 == sv.value.0 {
      VersionRoundTrip(MinVersion(rv.value, sv.value));
    }
  }

  // ---------------------------------------------------------------------
  // Header lines (section 4.2 of RFC 2616).

  /** Headers whose repeated values are joined with ", ". */
  const CommaSeparated: seq<string> := [
    "ACCEPT", "ACCEPT-CHARSET", "ACCEPT-ENCODING", "ACCEPT-LANGUAGE", "ACCEPT-RANGES",
    "ALLOW", "CACHE-CONTROL", "CONNECTION", "CONTENT-ENCODING", "CONTENT-LANGUAGE",
    "EXPECT", "IF-MATCH", "IF-NONE-MATCH", "PRAGMA", "PROXY-AUTHENTICATE", "TE",
    "TRAILER", "TRANSFER-ENCODING", "UPGRADE", "VARY", "VIA", "WARNING", "WWW-AUTHENTICATE"]

  /** The environ key of a header: `"HTTP_" + k.replace("-", "_")`. */
  function EnvName(k: string): (r: string)
    ensures StartsWith(r, "HTTP_") && |r| == |k| + 5
    ensures '-' !in r[5..]
    ensures forall i :: 0 <= i < |k| ==> r[5 + i] == (if k[i] == '-' then '_' else k[i])
  {
    "HTTP_" + ReplaceChar(k, '-', '_')
  }

  /** Stores one header value, joined to a non-empty earlier value when the
      header is in the comma-separated list. */
  function Store(env: Environ, k: string, envname: string, v: string): Environ {
    var joined := if k in CommaSeparated && Get(env, envname) != "" then Get(env, envname) + ", " + v else v;
    env[envname := joined]
  }

  /** The last header named, `(k, envname)`: Python locals that a
      continuation line reuses, kept from one request to the next. */
  type LastHeader = Option<(string, string)>

  datatype Folded =
    | Folded(env: Environ, last: LastHeader, next: nat) // reached the empty line
    | Malformed                                         // a line without ':': 400
    | Broken                                            // end of input, or a first continuation line: 500

  /** Folds the header lines from position `i` up to the empty line. */
  function FoldFrom(lines: seq<string>, i: nat, env: Environ, last: LastHeader): Folded
    decreases |lines| - i
  {
    var line := Line(lines, i);
    if line == CRLF then Folded(env, last, i + 1)
    else if line == [] then Broken
    else if line[0] == ' ' || line[0] == '\t' then
      match last
      case None => Broken
      case Some(named) => FoldFrom(lines, i + 1, Store(env, named.0, named.1, Strip(line)), last)
    else
      match SplitOnce(line, ':')
      case None => Malformed
      case Some(parts) =>
        var k := Upper(Strip(parts.0));
        var envname := EnvName(k);
        FoldFrom(lines, i + 1, Store(env, k, envname, Strip(parts.1)), Some((k, envname)))
  }

  /** The header loop of `run`, proved to fold as FoldFrom does. */
  method FoldHeaders(lines: seq<string>, start: nat, env0: Environ, last0: LastHeader) returns (r: Folded)
    ensures r == FoldFrom(lines, start, env0, last0)
  {
    var i := start;
    var env := env0;
    var last := last0;
    while true
      invariant FoldFrom(lines, i, env, last) == FoldFrom(lines, start, env0, last0)
      decreases |lines| - i
    {
      var stop: Option<Folded>;
      stop, env, last := FoldLine(lines, i, env, last);
      if stop.Some? {
        return stop.value;
      }
      i := i + 1;
    }
  }

  /** One pass of the header loop over line `i`: the end of the headers or
      an error, or the environ and last header the loop goes on with. */
  method FoldLine(lines: seq<string>, i: nat, env: Environ, last: LastHeader)
    returns (stop: Option<Folded>, env': Environ, last': LastHeader)
    ensures stop.Some? ==> stop.value == FoldFrom(lines, i, env, last)
    ensures stop.None? ==> i < |lines| && FoldFrom(lines, i, env, last) == FoldFrom(lines, i + 1, env', last')
  {
    env', last' := env, last;
    var line := Line(lines, i);
    if line == CRLF {
      return Some(Folded(env, last, i + 1)), env', last';
    }
    if line == [] {
      return Some(Broken), env', last';
    }
    if line[0] == ' ' || line[0] == '\t' {
      if last.None? {
        return Some(Broken), env', last';
      }
      FoldContinues(lines, i, env, last);
      env' := Store(env, last.value.0, last.value.1, Strip(line));
    } else {
      var parts := SplitOnce(line, ':');
      if parts.None? {
        return Some(Malformed), env', last';
      }
      var k := Upper(Strip(parts.value.0));
      var envname := EnvName(k);
      FoldNames(lines, i, env, last);
      env' := Store(env, k, envname, Strip(parts.value.1));
      last' := Some((k, envname));
    }
    stop := None;
  }

  /** A continuation line adds to the header named last. */
  lemma FoldContinues(lines: seq<string>, i: nat, env: Environ, last: LastHeader)
    requires Line(lines, i) != CRLF && Line(lines, i) != []
    requires Line(lines, i)[0] == ' ' || Line(lines, i)[0] == '\t'
    requires last.Some?
    ensures FoldFrom(lines, i, env, last) ==
            FoldFrom(lines, i + 1, Store(env, last.value.0, last.value.1, Strip(Line(lines, i))), last)
  {
  }

  /** A `name: value` line stores the value under the name's key and makes
      it the header named last. */
  lemma FoldNames(lines: seq<string>, i: nat, env: Environ, last: LastHeader)
    requires Line(lines, i) != CRLF && Line(lines, i) != []
    requires Line(lines, i)[0] != ' ' && Line(lines, i)[0] != '\t'
    requires SplitOnce(Line(lines, i), ':').Some?
    ensures var parts := SplitOnce(Line(lines, i), ':').value;
            var k := Upper(Strip(parts.0));
            FoldFrom(lines, i, env, last) ==
            FoldFrom(lines, i + 1, Store(env, k, EnvName(k), Strip(parts.1)), Some((k, EnvName(k))))
  {
  }

  /** Header folding only writes `HTTP_` keys: every other entry of the
      environ comes through unchanged, and every key it adds is an `HTTP_` one. */
  lemma {:induction false} FoldKeepsOthers(lines: seq<string>, i: nat, env: Environ, last: LastHeader)
    requires last.Some? ==> StartsWith(last.value.1, "HTTP_")
    ensures FoldFrom(lines, i, env, last).Folded? ==>
              var out := FoldFrom(lines, i, env, last).env;
              && env.Keys <= out.Keys
              && (forall key :: key in env && !StartsWith(key, "HTTP_") ==> out[key] == env[key])
              && (forall key :: key in out && key !in env ==> StartsWith(key, "HTTP_"))
    decreases |lines| - i
  {
    var line := Line(lines, i);
    if line == CRLF || line == [] {
    } else if line[0] == ' ' || line[0] == '\t' {
      if last.Some? {
        FoldKeepsOthers(lines, i + 1, Store(env, last.value.0, last.value.1, Strip(line)), last);
      }
    } else if SplitOnce(line, ':').Some? {
      var parts := SplitOnce(line, ':').value;
      var k := Upper(Strip(parts.0));
      FoldKeepsOthers(lines, i + 1, Store(env, k, EnvName(k), Strip(parts.1)), Some((k, EnvName(k))));
    }
  }

  /** One `name: value` line: the stripped, upper-cased name becomes the key,
      the stripped value is stored under it, and the name is remembered. */
  lemma FoldHeaderLine(lines: seq<string>, i: nat, env: Environ, last: LastHeader, name: string, value: string)
    requires Line(lines, i) == name + ":" + value
    requires ':' !in name && name != [] && name[0] != ' ' && name[0] != '\t'
    ensures var k := Upper(Strip(name));
            FoldFrom(lines, i, env, last)
              == FoldFrom(lines, i + 1, Store(env, k, EnvName(k), Strip(value)), Some((k, EnvName(k))))
  {
    var line := name + ":" + value;
    assert line == name + [':'] + value;
    SplitOnceAt(name, ':', value);
    assert line[0] == name[0];
    assert line != CRLF by {
      assert ':' in line[..|name| + 1];
    }
  }

  /** A header given twice (and not before): in the comma-separated list the values are
      joined with ", " (when the first is not empty); any other header keeps
      only the later value. */
  lemma RepeatedHeader(lines: seq<string>, i: nat, env: Environ, last: LastHeader,
                       name: string, v1: string, v2: string)
    requires Line(lines, i) == name + ":" + v1 && Line(lines, i + 1) == name + ":" + v2
    requires ':' !in name && name != [] && name[0] != ' ' && name[0] != '\t'
    requires EnvName(Upper(Strip(name))) !in env
    ensures var k := Upper(Strip(name));
            var e := EnvName(k);
            var joined := if k in CommaSeparated && Strip(v1) != "" then Strip(v1) + ", " + Strip(v2) else Strip(v2);
            FoldFrom(lines, i, env, last) == FoldFrom(lines, i + 2, env[e := joined], Some((k, e)))
  {
    var k := Upper(Strip(name));
    var e := EnvName(k);
    FoldHeaderLine(lines, i, env, last, name, v1);
    var env1 := Store(env, k, e, Strip(v1));
    FoldHeaderLine(lines, i + 1, env1, Some((k, e)), name, v2);
    StoreTwice(env, k, e, Strip(v1), Strip(v2));
  }

  lemma StoreTwice(env: Environ, k: string, e: string, v1: string, v2: string)
    requires e !in env
    ensures Store(Store(env, k, e, v1), k, e, v2)
              == env[e := if k in CommaSeparated && v1 != "" then v1 + ", " + v2 else v2]
  {
    assert Get(Store(env, k, e, v1), e) == v1;
  }

  /** A continuation line (leading space or tab) goes to the header named
      last: joined to it with ", " for a comma-separated header, replacing
      its value otherwise. */
  lemma ContinuationLine(lines: seq<string>, i: nat, env: Environ, k: string, e: string)
    requires Line(lines, i) != [] && (Line(lines, i)[0] == ' ' || Line(lines, i)[0] == '\t')
    ensures var v := Strip(Line(lines, i));
            var joined := if k in CommaSeparated && Get(env, e) != "" then Get(env, e) + ", " + v else v;
            FoldFrom(lines, i, env, Some((k, e))) == FoldFrom(lines, i + 1, env[e := joined], Some((k, e)))
  {
    assert Line(lines, i) != CRLF;
  }

  /** A continuation line before any header, or the end of the input before
      the empty line, is an internal error; a line without ':' is a 400. */
  lemma FoldErrors(lines: seq<string>, i: nat, env: Environ, last: LastHeader)
    ensures i >= |lines| ==> FoldFrom(lines, i, env, last) == Broken
    ensures var line := Line(lines, i);
            line != CRLF && line != [] && line[0] != ' ' && line[0] != '\t' && ':' !in line ==>
              FoldFrom(lines, i, env, last) == Malformed
    ensures var line := Line(lines, i);
            line != [] && (line[0] == ' ' || line[0] == '\t') && last.None? ==>
              FoldFrom(lines, i, env, last) == Broken
  {
  }

  // ---------------------------------------------------------------------
  // After the header lines.

  /** `HTTP_CONTENT_TYPE` and `HTTP_CONTENT_LENGTH` are popped and, when not
      empty, stored as `CONTENT_TYPE` and `CONTENT_LENGTH`. */
  function MoveContentHeaders(env: Environ): Environ
  {
    var ct := Get(env, "HTTP_CONTENT_TYPE");
    var e1 := env - {"HTTP_CONTENT_TYPE"};
    var e2 := if ct != "" then e1["CONTENT_TYPE" := ct] else e1;
    var cl := Get(e2, "HTTP_CONTENT_LENGTH");
    var e3 := e2 - {"HTTP_CONTENT_LENGTH"};
    if cl != "" then e3["CONTENT_LENGTH" := cl] else e3
  }
  /** Only the four content entries change; each content header that was
      given is moved to its CGI name, and otherwise the CGI entry stays. */
  lemma MoveContentHeadersEntries(env: Environ)
    ensures "HTTP_CONTENT_TYPE" !in MoveContentHeaders(env) && "HTTP_CONTENT_LENGTH" !in MoveContentHeaders(env)
    ensures Get(env, "HTTP_CONTENT_TYPE") != "" ==> Get(MoveContentHeaders(env), "CONTENT_TYPE") == env["HTTP_CONTENT_TYPE"]
    ensures Get(env, "HTTP_CONTENT_LENGTH") != "" ==> Get(MoveContentHeaders(env), "CONTENT_LENGTH") == env["HTTP_CONTENT_LENGTH"]
    ensures Get(env, "HTTP_CONTENT_TYPE") == "" ==> Get(MoveContentHeaders(env), "CONTENT_TYPE") == Get(env, "CONTENT_TYPE")
    ensures Get(env, "HTTP_CONTENT_LENGTH") == "" ==> Get(MoveContentHeaders(env), "CONTENT_LENGTH") == Get(env, "CONTENT_LENGTH")
    ensures forall key :: (key in env && key != "HTTP_CONTENT_TYPE" && key != "HTTP_CONTENT_LENGTH"
                           && key != "CONTENT_TYPE" && key != "CONTENT_LENGTH") ==> key in MoveContentHeaders(env) && MoveContentHeaders(env)[key] == env[key]
    ensures forall key :: key in MoveContentHeaders(env) ==> key in env || key == "CONTENT_TYPE" || key == "CONTENT_LENGTH"
  {
  }


  /** `creds = HTTP_AUTHORIZATION.split(" ", 1)`: `AUTH_TYPE` is the first
      part; for Basic credentials the user name before ':' in the decoded
      second part becomes `REMOTE_USER`. None where Python raises: no second
      part, undecodable base64 (`b64decode` gives None), or no ':'. */
  function Authorize(env: Environ, b64decode: string -> Option<string>): Option<Environ> {
    var creds := Get(env, "HTTP_AUTHORIZATION");
    var split := SplitOnce(creds, ' ');
    var authType := if split.Some? then split.value.0 else creds;
    var env1 := env["AUTH_TYPE" := authType];
    if Lower(authType) != "basic" then Some(env1)
    else if split.None? then None
    else
      match b64decode(split.value.1)
      case None => None
      case Some(decoded) =>
        match SplitOnce(decoded, ':')
        case None => None
        case Some(userPass) => Some(env1["REMOTE_USER" := userPass.0])
  }

  /** Basic credentials as a client sends them give the user name; any other
      scheme only sets AUTH_TYPE and never fails. */
  lemma AuthorizeBasic(env: Environ, b64decode: string -> Option<string>,
                       scheme: string, token: string, user: string, password: string)
    requires Get(env, "HTTP_AUTHORIZATION") == scheme + " " + token && ' ' !in scheme
    requires Lower(scheme) == "basic" && ':' !in user
    requires b64decode(token) == Some(user + ":" + password)
    ensures Authorize(env, b64decode) == Some(env["AUTH_TYPE" := scheme]["REMOTE_USER" := user])
  {
    assert scheme + " " + token == scheme + [' '] + token;
    SplitOnceAt(scheme, ' ', token);
    assert user + ":" + password == user + [':'] + password;
    SplitOnceAt(user, ':', password);
  }

  lemma AuthorizeOther(env: Environ, b64decode: string -> Option<string>)
    requires var creds := Get(env, "HTTP_AUTHORIZATION");
             Lower(if SplitOnce(creds, ' ').Some? then SplitOnce(creds, ' ').value.0 else creds) != "basic"
    ensures Authorize(env, b64decode).Some?
    ensures Authorize(env, b64decode).value.Keys == env.Keys + {"AUTH_TYPE"}
    ensures forall key :: key in env && key != "AUTH_TYPE" ==> Authorize(env, b64decode).value[key] == env[key]
  {
  }

  /** Whether the connection closes after this request (section 8.1 of RFC
      2616): an HTTP/1.1 request asks with exactly `Connection: close`, any
      other asks to stay open with `Connection: keep-alive` in any case. */
  predicate ClosesAfter(requestProtocol: string, env: Environ) {
    if requestProtocol == "HTTP/1.1" then Get(env, "HTTP_CONNECTION") == "close"
    else Lower(Get(env, "HTTP_CONNECTION")) != "keep-alive"
  }

  /** HTTP/1.1 connections persist by default, HTTP/1.0 ones close by
      default; an explicit `Connection` header reverses each default. */
  lemma PersistenceDefaults(env: Environ, protocol: string)
    ensures Get(env, "HTTP_CONNECTION") == "" ==> (ClosesAfter(protocol, env) <==> protocol != "HTTP/1.1")
    ensures Get(env, "HTTP_CONNECTION") == "close" ==> ClosesAfter(protocol, env)
    ensures Lower(Get(env, "HTTP_CONNECTION")) == "keep-alive" ==> !ClosesAfter(protocol, env)
  {
    assert Lower("") == "";
    assert Lower("close") == "close";
  }

  // ---------------------------------------------------------------------
  // Transfer-Encoding of the request body (not supported).

  predicate AllSpace(s: string) {
    forall i :: 0 <= i < |s| ==> IsSpace(s[i])
  }

  lemma StripEmpty(s: string)
    ensures Strip(s) == [] <==> AllSpace(s)
  {
    var t := TrimLeft(s);
    TrimLeftSuffix(s);
    assert t != [] ==> t[0] == s[|s| - |t|];
    if Strip(s) == [] {
      TrimLeftRemovesSpaces(s);
      TrimRightRemovesSpaces(t);
    }
  }

  /** `[x.strip().lower() for x in pieces if x.strip()]` */
  function CodingsOf(pieces: seq<string>): seq<string> {
    if pieces == [] then []
    else if Strip(pieces[0]) == [] then CodingsOf(pieces[1..])
    else [Lower(Strip(pieces[0]))] + CodingsOf(pieces[1..])
  }

  /** The transfer codings named in a Transfer-Encoding value. */
  function Codings(te: string): seq<string> {
    CodingsOf(SplitAll(te, ','))
  }

  /** A request body with transfer codings is refused with 501, on HTTP/1.1
      responses only. */
  predicate RejectsCodings(responseProtocol: string, env: Environ) {
    responseProtocol == "HTTP/1.1" && Codings(Get(env, "HTTP_TRANSFER_ENCODING")) != []
  }

  lemma {:induction false} CodingsOfEmpty(pieces: seq<string>)
    ensures CodingsOf(pieces) == [] <==> AllBlank(pieces)
  {
    if pieces != [] {
      CodingsOfEmpty(pieces[1..]);
      StripEmpty(pieces[0]);
      AllBlankCons(pieces[0], pieces[1..]);
      assert [pieces[0]] + pieces[1..] == pieces;
    }
  }

  predicate AllBlank(pieces: seq<string>) {
    forall k :: 0 <= k < |pieces| ==> AllSpace(pieces[k])
  }

  /** Only `c` and whitespace in `s`. */
  predicate OnlyOf(s: string, c: char) {
    forall i :: 0 <= i < |s| ==> s[i] == c || IsSpace(s[i])
  }

  lemma AllSpaceCons(x: char, t: string)
    ensures AllSpace([x] + t) <==> IsSpace(x) && AllSpace(t)
  {
    var xt := [x] + t;
    assert xt[0] == x;
    assert forall i :: 1 <= i < |xt| ==> xt[i] == t[i - 1];
    assert forall j :: 0 <= j < |t| ==> t[j] == xt[j + 1];
  }

  lemma AllBlankCons(p: string, ps: seq<string>)
    ensures AllBlank([p] + ps) <==> AllSpace(p) && AllBlank(ps)
  {
    var pps := [p] + ps;
    assert pps[0] == p;
    assert forall k :: 1 <= k < |pps| ==> pps[k] == ps[k - 1];
    assert forall j :: 0 <= j < |ps| ==> ps[j] == pps[j + 1];
  }

  lemma OnlyOfCons(s: string, c: char)
    requires s != []
    ensures OnlyOf(s, c) <==> (s[0] == c || IsSpace(s[0])) && OnlyOf(s[1..], c)
  {
    assert forall i :: 1 <= i < |s| ==> s[i] == s[1..][i - 1];
  }

  /** The pieces of `s.split(c)` are all blank exactly when `s` holds
      nothing but `c` and whitespace. */
  lemma {:induction false} SplitAllBlank(s: string, c: char)
    ensures AllBlank(SplitAll(s, c)) <==> OnlyOf(s, c)
  {
    if s == [] {
      assert AllSpace(SplitAll(s, c)[0]);
    } else {
      var rest := SplitAll(s[1..], c);
      SplitAllBlank(s[1..], c);
      OnlyOfCons(s, c);
      if s[0] == c {
        AllBlankCons([], rest);
      } else {
        AllSpaceCons(s[0], rest[0]);
        AllBlankCons([s[0]] + rest[0], rest[1..]);
        AllBlankCons(rest[0], rest[1..]);
        assert [rest[0]] + rest[1..] == rest;
      }
    }
  }

  /** Transfer codings are present exactly when the value holds something
      other than commas and whitespace. */
  lemma CodingsPresent(te: string)
    ensures Codings(te) == [] <==> OnlyOf(te, ',')
  {
    CodingsOfEmpty(SplitAll(te, ','));
    SplitAllBlank(te, ',');
  }

  // ---------------------------------------------------------------------
  // The content length handed to the application.

  /** `int(CONTENT_LENGTH or 0) or None`: no length for an empty or zero
      value, an error where the value is not an integer. */
  function ProxyLength(env: Environ): (r: Result<Option<int>, Fault>)
    ensures r.Ok? && r.value.Some? ==> r.value.value != 0
    ensures Get(env, "CONTENT_LENGTH") == "" ==> r == Ok(None)
  {
    var cl := Get(env, "CONTENT_LENGTH");
    if cl == "" then Ok(None)
    else match ParseInt(cl)
      case None => Err(ValueError("invalid literal for int() with base 10"))
      case Some(n) => Ok(if n == 0 then None else Some(n))
  }

  /** A length the client wrote in decimal reaches the application. */
  lemma ProxyLengthReadsDecimal(env: Environ, n: nat)
    requires Get(env, "CONTENT_LENGTH") == Decimal(n)
    ensures ProxyLength(env) == Ok(if n == 0 then None else Some(n))
  {
    ParseIntReadsDecimal(n);
  }
}
