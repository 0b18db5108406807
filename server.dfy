/** Configuration helpers of the server: the `asbool` option reader and the
    `bind_addr` property of WSGIServer. */
module Server {
  import opened Common
  import opened Text

  /** An option value: a string, or any other object, known by its truth value. */
  datatype PyValue = Str(s: string) | Other(truthy: bool)

  const TrueWords: seq<string> := ["true", "yes", "on", "y", "t", "1"]
  const FalseWords: seq<string> := ["false", "no", "off", "n", "f", "0"]

  /** `asbool`: a string is stripped and lower-cased, then must be one of the
      true or false words (ValueError otherwise); any other object is read by
      its truth value. */
  function AsBool(obj: PyValue): (r: Result<bool, Fault>)
    ensures obj.Other? ==> r == Ok(obj.truthy)
    ensures obj.Str? ==> (r == Ok(true) <==> Lower(Strip(obj.s)) in TrueWords)
    ensures obj.Str? ==> (r == Ok(false) <==> Lower(Strip(obj.s)) in FalseWords)
    ensures obj.Str? ==> (r.Err? <==> Lower(Strip(obj.s)) !in TrueWords + FalseWords)
  {
    match obj
    case Other(b) => Ok(b)
    case Str(s) =>
      var t := Lower(Strip(s));
      if t in TrueWords then Ok(true)
      else if t in FalseWords then Ok(false)
      else Err(ValueError("String is not true/false: '" + t + "'"))
  }

  /** Surrounding whitespace does not change how an option string is read. */
  lemma AsBoolIgnoresPadding(pre: string, s: string, post: string)
    requires forall i :: 0 <= i < |pre| ==> IsSpace(pre[i])
    requires forall i :: 0 <= i < |post| ==> IsSpace(post[i])
    ensures AsBool(Str(pre + s + post)) == AsBool(Str(s))
  {
    StripPadding(pre, s, post);
  }

  /** Nor does the case of its letters. */
  lemma AsBoolIgnoresCase(s: string)
    ensures AsBool(Str(Upper(s))) == AsBool(Str(s))
  {
    StripUpper(s);
    LowerUpper(Strip(s));
  }

  // ---------------------------------------------------------------------
  // bind_addr

  /** A `(host, port)` pair, or a UNIX socket path given as a string. */
  datatype BindAddr = Tcp(host: Option<string>, port: int) | Path(path: string)

  /** A host of '' or None is refused: it does not mean "all interfaces". */
  predicate RefusedHost(v: BindAddr) {
    v.Tcp? && (v.host == None || v.host == Some(""))
  }

  const RefusedHostMessage: string :=
    "Host values of '' or None are not allowed. Use '0.0.0.0' (IPv4) or '::' (IPv6) instead to listen on all active interfaces."

  class WSGIServer {
    var bindAddr: BindAddr

    /** The class default before the setter runs. */
    constructor()
      ensures bindAddr == Path("localhost")
    {
      bindAddr := Path("localhost");
    }

    /** The `bind_addr` setter: raises ValueError for a refused host and
        keeps the old address, otherwise stores the value as given. */
    method SetBindAddr(v: BindAddr) returns (err: Option<Fault>)
      modifies this
      ensures err.Some? <==> RefusedHost(v)
      ensures err.Some? ==> err.value.ValueError? && bindAddr == old(bindAddr)
      ensures err.None? ==> bindAddr == v
    {
      if v.Tcp? && (v.host == Some("") || v.host == None) {
        return Some(ValueError(RefusedHostMessage));
      }
      bindAddr := v;
      return None;
    }

    method GetBindAddr() returns (v: BindAddr)
      ensures v == bindAddr
    {
      v := bindAddr;
    }
  }

  /** What the setter accepts, the getter gives back. */
  method BindAddrRoundTrip(server: WSGIServer, v: BindAddr) returns (got: BindAddr)
    requires !RefusedHost(v)
    modifies server
    ensures got == v
  {
    var err := server.SetBindAddr(v);
    got := server.GetBindAddr();
  }
}
