/** The HTTP transport's request gate (src/transports/http.ts): which Host and
    Origin headers are accepted, how the Authorization header becomes the auth
    record handed to the MCP transport, and the order in which a request is turned
    away with 404, 405, 403, 401 or 500 before anything is dispatched.

    URL parsing is a parameter (`UrlParser`); the SDK transport that serves an
    admitted request and the stream that yields its JSON body are parameters too. */
module HttpTransport {
  import opened Wrappers
  import opened Js
  import opened Errors

  const McpPath := "/mcp"

  // ---------------------------------------------------------------------------
  // Host names

  predicate NoUpper(s: string) {
    forall i :: 0 <= i < |s| ==> !('A' <= s[i] <= 'Z')
  }

  lemma LowerHasNoUpper(s: string)
    ensures NoUpper(Lower(s))
  {
  }

  /** A trimmed header that starts with '[' and has a ']' somewhere: an IPv6 literal
      as section 3.2.2 of RFC 3986 writes it. */
  predicate Bracketed(t: string) {
    StartsWith(t, "[") && IndexOf(t, ']').Some?
  }

  /** `split(":")[0]`: the text before the first colon, or all of it. */
  function BeforeColon(t: string): (r: string)
    ensures |r| <= |t| && r == t[..|r|] && ':' !in r
    ensures |r| < |t| ==> t[|r|] == ':'
  {
    match IndexOf(t, ':')
    case None => t
    case Some(i) => t[..i]
  }

  /** stripPort: the lower-cased host of a Host-style value. A bracketed literal gives
      what lies between '[' and the first ']'; anything else gives the text before
      the first ':'. */
  function StripPort(value: string): (r: string)
    ensures NoUpper(r)
    ensures var t := Trim(value);
      Bracketed(t) ==>
        1 + |r| < |t| && t[1 + |r|] == ']' && r == Lower(t[1..1 + |r|]) && ']' !in r
    ensures var t := Trim(value);
      !Bracketed(t) ==>
        |r| <= |t| && r == Lower(t[..|r|]) && (|r| < |t| ==> t[|r|] == ':') && ':' !in r
  {
    var t := Trim(value);
    if Bracketed(t) then
      var end := IndexOf(t, ']').value;
      assert t[0] == '[' by {
        assert t[..1] == "[";
      }
      LowerHasNoUpper(t[1..end]);
      Lower(t[1..end])
    else
      LowerHasNoUpper(BeforeColon(t));
      Lower(BeforeColon(t))
  }

  /** A bare IPv6 address is cut at its first colon: "::1" without brackets strips
      to the empty host. */
  lemma StripPortLeadingColon(value: string)
    requires Trim(value) != [] && Trim(value)[0] == ':'
    ensures StripPort(value) == ""
  {
    var t := Trim(value);
    assert !StartsWith(t, "[");
  }

  lemma BareLoopbackStripsToEmpty(value: string)
    requires value == "::1"
    ensures StripPort(value) == ""
  {
    assert Trim(value) == value by {
      TrimNoop(value);
    }
    StripPortLeadingColon(value);
  }

  /** A host name followed by a numeric port strips to the host name. */
  lemma StripPortOfHostAndPort(host: string, port: string)
    requires host != [] && Unpadded(host) && NoUpper(host) && ':' !in host && host[0] != '['
    requires AllDigits(port)
    ensures StripPort(host + ":" + port) == host
  {
    var v := host + ":" + port;
    assert v[0] == host[0];
    assert !IsWhitespace(v[|v| - 1]) by {
      if port != [] {
        assert v[|v| - 1] == port[|port| - 1];
      } else {
        assert v[|v| - 1] == ':';
      }
    }
    TrimNoop(v);
    assert !StartsWith(v, "[") by {
      assert v[..1][0] == host[0];
    }
    LowerNoop(v[..|host|]);
    assert v[..|host|] == host;
  }

  /** getAllowedHosts: the three loopback names and the configured host, stripped. */
  function AllowedHosts(httpHost: string): (hosts: set<string>)
    ensures |hosts| <= 4
    ensures forall h :: h in hosts <==> h in {"localhost", "127.0.0.1", "::1"} || h == StripPort(httpHost)
  {
    {"localhost", "127.0.0.1", "::1", StripPort(httpHost)}
  }

  /** Whatever the configured host is, a loopback Host header with a port is let
      through. */
  lemma LoopbackAlwaysAllowed(httpHost: string, port: string)
    requires AllDigits(port)
    ensures StripPort("localhost" + ":" + port) in AllowedHosts(httpHost)
    ensures StripPort("127.0.0.1" + ":" + port) in AllowedHosts(httpHost)
  {
    LoopbackHost("localhost", port);
    LoopbackHost("127.0.0.1", port);
  }

  lemma LoopbackHost(host: string, port: string)
    requires host == "localhost" || host == "127.0.0.1"
    requires AllDigits(port)
    ensures StripPort(host + ":" + port) == host
  {
    assert host != [] && Unpadded(host) && NoUpper(host) && ':' !in host && host[0] != '[';
    StripPortOfHostAndPort(host, port);
  }

  // ---------------------------------------------------------------------------
  // Requests and the pure gates

  /** What is thrown inside the handler: an Error with its message, or some other
      value. */
  datatype Fault = ErrorObject(message: string) | OtherValue

  function FaultMessage(f: Fault): string {
    match f
    case ErrorObject(m) => m
    case OtherValue => "Internal server error"
  }

  /** The URL parser the handler relies on: `path` gives `new URL(url, base).pathname`
      or what it throws, `host` gives `new URL(origin).host` or None when it throws. */
  datatype UrlParser = UrlParser(path: string -> Result<string, Fault>, host: string -> Option<string>)

  /** What the handler reads of an incoming request; None is an absent header. */
  datatype RequestHead = RequestHead(
    url: Option<string>,
    httpMethod: Option<string>,
    host: Option<string>,
    origin: Option<string>,
    authorization: Option<string>)

  /** A JavaScript truthiness test on an optional string. */
  predicate Given(s: Option<string>) {
    s.Some? && s.value != ""
  }

  datatype Verdict = Allowed | Denied(reason: string)

  const HostRefused := "Host header is not allowed"
  const OriginRefused := "Origin is not allowed"
  const OriginInvalid := "Invalid Origin header"

  /** validateHostAndOrigin: the Host header is checked before the Origin header,
      each only when present and non-empty. */
  function ValidateHostAndOrigin(head: RequestHead, httpHost: string, urls: UrlParser): (v: Verdict)
    ensures v == Allowed <==>
      && (Given(head.host) ==> StripPort(head.host.value) in AllowedHosts(httpHost))
      && (Given(head.origin) ==>
            urls.host(head.origin.value).Some? && StripPort(urls.host(head.origin.value).value) in AllowedHosts(httpHost))
    ensures Given(head.host) && StripPort(head.host.value) !in AllowedHosts(httpHost) ==> v == Denied(HostRefused)
    ensures ((!Given(head.host) || StripPort(head.host.value) in AllowedHosts(httpHost)) && Given(head.origin)
             && urls.host(head.origin.value).None?) ==> v == Denied(OriginInvalid)
    ensures ((!Given(head.host) || StripPort(head.host.value) in AllowedHosts(httpHost)) && Given(head.origin)
             && urls.host(head.origin.value).Some?
             && StripPort(urls.host(head.origin.value).value) !in AllowedHosts(httpHost)) ==> v == Denied(OriginRefused)
    ensures v.Denied? ==> v.reason in {HostRefused, OriginRefused, OriginInvalid}
  {
    var allowed := AllowedHosts(httpHost);
    if Given(head.host) && StripPort(head.host.value) !in allowed then Denied(HostRefused)
    else if Given(head.origin) then
      match urls.host(head.origin.value)
      case None => Denied(OriginInvalid)
      case Some(h) => if StripPort(h) !in allowed then Denied(OriginRefused) else Allowed
    else Allowed
  }

  /** The AuthInfo record attached to an admitted request (expiresAt is always
      undefined). */
  datatype AuthInfo = AuthInfo(token: string, clientId: string, scopes: seq<string>)

  const BearerPrefix := "Bearer "
  const MissingAuthorization := "Missing Authorization header"
  const NotBearer := "Authorization must use Bearer token"
  const NotShelvKey := "Shelv API key must use sk_ prefix"

  /** parseAuth: a missing or blank header falls back to the configured key; a present
      one must read "Bearer " followed by an sk_ token. */
  function ParseAuth(authorization: Option<string>, apiKey: Option<string>): (r: Result<AuthInfo, string>)
    ensures (authorization.None? || Trim(authorization.value) == "") ==>
      r == (if Given(apiKey) then Ok(AuthInfo(apiKey.value, "env-fallback", [])) else Err(MissingAuthorization))
    ensures authorization.Some? && Trim(authorization.value) != "" ==>
      && (r.Ok? <==> StartsWith(authorization.value, BearerPrefix)
                     && StartsWith(Trim(authorization.value[|BearerPrefix|..]), "sk_"))
      && (r.Ok? ==> r.value == AuthInfo(Trim(authorization.value[|BearerPrefix|..]), "request-bearer", []))
      && (r.Err? ==> r.error == if StartsWith(authorization.value, BearerPrefix) then NotShelvKey else NotBearer)
  {
    if authorization.None? || Trim(authorization.value) == "" then
      if Given(apiKey) then Ok(AuthInfo(apiKey.value, "env-fallback", [])) else Err(MissingAuthorization)
    else if !StartsWith(authorization.value, BearerPrefix) then Err(NotBearer)
    else
      var token := Trim(authorization.value[|BearerPrefix|..]);
      if !StartsWith(token, "sk_") then Err(NotShelvKey)
      else Ok(AuthInfo(token, "request-bearer", []))
  }

  /** A bearer token is admitted only as a trimmed sk_ key; the configured key is
      passed through as it is, with no prefix check at this layer. */
  lemma AuthTokens(authorization: Option<string>, apiKey: Option<string>)
    requires ParseAuth(authorization, apiKey).Ok?
    ensures var auth := ParseAuth(authorization, apiKey).value;
      && auth.scopes == []
      && (auth.clientId == "request-bearer" ==> StartsWith(auth.token, "sk_") && Unpadded(auth.token))
      && (auth.clientId == "env-fallback" ==> apiKey == Some(auth.token))
      && (auth.clientId == "request-bearer" || auth.clientId == "env-fallback")
  {
    if authorization.Some? && Trim(authorization.value) != "" {
      var rest := authorization.value[|BearerPrefix|..];
      assert Unpadded(Trim(rest)) by {
        TrimCharacterised(rest);
      }
    }
  }

  /** The methods the endpoint serves. */
  predicate ServedMethod(m: string) {
    m == "GET" || m == "POST" || m == "DELETE"
  }

  /** `req.method || "GET"` */
  function MethodOf(head: RequestHead): string {
    if Given(head.httpMethod) then head.httpMethod.value else "GET"
  }

  /** The pathname of the request URL; an absent or empty URL is "/". */
  function RequestPath(head: RequestHead, urls: UrlParser): Result<string, Fault> {
    if Given(head.url) then urls.path(head.url.value) else Ok("/")
  }

  /** How the handler disposes of a request before any body is read. */
  datatype Decision = Reject(status: int, reason: string) | Admit(auth: AuthInfo, httpMethod: string)

  /** The decision sequence of the request handler: path, method, host and origin,
      authorization, in that order; the first that fails decides the reply. A URL
      that does not parse throws, and the catch answers 500. */
  function Gate(head: RequestHead, httpHost: string, apiKey: Option<string>, urls: UrlParser): Decision {
    match RequestPath(head, urls)
    case Err(f) => Reject(500, FaultMessage(f))
    case Ok(path) =>
      if path != McpPath then Reject(404, "Not found")
      else if !ServedMethod(MethodOf(head)) then Reject(405, "Method not allowed")
      else match ValidateHostAndOrigin(head, httpHost, urls)
        case Denied(reason) => Reject(403, reason)
        case Allowed =>
          match ParseAuth(head.authorization, apiKey)
          case Err(reason) => Reject(401, reason)
          case Ok(auth) => Admit(auth, MethodOf(head))
  }

  /** Each status is given for exactly the first check that fails, and a request is
      admitted exactly when every check passes. */
  lemma GateOrder(head: RequestHead, httpHost: string, apiKey: Option<string>, urls: UrlParser)
    ensures var d := Gate(head, httpHost, apiKey, urls);
      var path := RequestPath(head, urls);
      var onPath := path == Ok(McpPath);
      var served := ServedMethod(MethodOf(head));
      var secure := ValidateHostAndOrigin(head, httpHost, urls) == Allowed;
      var authed := ParseAuth(head.authorization, apiKey).Ok?;
      && (d.Reject? && d.status == 500 <==> path.Err?)
      && (d == Reject(404, "Not found") <==> path.Ok? && !onPath)
      && (d == Reject(405, "Method not allowed") <==> onPath && !served)
      && (d.Reject? && d.status == 403 <==> onPath && served && !secure)
      && (d.Reject? && d.status == 401 <==> onPath && served && secure && !authed)
      && (d.Admit? <==> onPath && served && secure && authed)
  {
  }

  /** An admitted request carries the auth record parseAuth produced and a method the
      endpoint serves. */
  lemma AdmittedRequest(head: RequestHead, httpHost: string, apiKey: Option<string>, urls: UrlParser)
    requires Gate(head, httpHost, apiKey, urls).Admit?
    ensures var d := Gate(head, httpHost, apiKey, urls);
      && ParseAuth(head.authorization, apiKey) == Ok(d.auth)
      && ServedMethod(d.httpMethod)
      && (Given(head.host) ==> StripPort(head.host.value) in AllowedHosts(httpHost))
  {
  }

  // ---------------------------------------------------------------------------
  // The handler

  /** What an HTTP response has been given so far. `error` is the `error` member of
      the JSON payload respondJson sends. */
  datatype ResponseState = ResponseState(statusCode: int, contentType: Option<string>, error: Option<string>, ended: bool)

  /** respondJson: nothing happens once the response has ended. */
  function RespondJson(s: ResponseState, status: int, reason: string): (t: ResponseState)
    ensures s.ended ==> t == s
    ensures !s.ended ==> t.ended && t.statusCode == status && t.error == Some(reason)
                         && t.contentType == Some("application/json")
  {
    if s.ended then s else ResponseState(status, Some("application/json"), Some(reason), true)
  }

  /** What the MCP transport is handed for an admitted request: the auth record and
      the parsed JSON body (undefined unless the method is POST). */
  datatype Handoff = Handoff(auth: AuthInfo, body: Value)

  /** What the SDK transport does with a handoff: it serves the response, or it
      throws before writing one. */
  datatype Service = Served(statusCode: int, contentType: Option<string>) | Crashed(fault: Fault)

  /** The whole exchange: the response, the auth attached to the request and what was
      handed to the transport. */
  datatype Exchange = Exchange(response: ResponseState, auth: Option<AuthInfo>, handoff: Option<Handoff>)

  /** What the handler does with a request once the gate has decided, given what
      reading its body yields and what the transport does when handed it. */
  function Handle(d: Decision, body: Result<Value, Fault>, transport: Handoff -> Service,
                  before: ResponseState, priorAuth: Option<AuthInfo>): Exchange
  {
    match d
    case Reject(status, reason) => Exchange(RespondJson(before, status, reason), priorAuth, None)
    case Admit(auth, m) =>
      var read := if m == "POST" then body else Ok(Undefined);
      match read
      case Err(f) => Exchange(RespondJson(before, 500, FaultMessage(f)), Some(auth), None)
      case Ok(v) =>
        var handoff := Handoff(auth, v);
        var after := match transport(handoff)
          case Served(status, contentType) => ResponseState(status, contentType, None, true)
          case Crashed(f) => RespondJson(before, 500, FaultMessage(f));
        Exchange(after, Some(auth), Some(handoff))
  }

  /** A rejected request is answered with its status and reason on a fresh response,
      keeps no auth record and reaches neither the body nor the transport. */
  lemma RejectedRequest(head: RequestHead, httpHost: string, apiKey: Option<string>, urls: UrlParser,
                        body: Result<Value, Fault>, transport: Handoff -> Service,
                        before: ResponseState, priorAuth: Option<AuthInfo>)
    requires Gate(head, httpHost, apiKey, urls).Reject?
    ensures var d := Gate(head, httpHost, apiKey, urls);
      var x := Handle(d, body, transport, before, priorAuth);
      && x.handoff.None? && x.auth == priorAuth
      && (forall body', transport' :: Handle(d, body', transport', before, priorAuth) == x)
      && (!before.ended ==> x.response.statusCode == d.status && x.response.error == Some(d.reason))
  {
  }

  /** The body is read only for POST: every other method hands the transport an
      undefined body, whatever the stream would have yielded. */
  lemma BodyOnlyForPost(head: RequestHead, httpHost: string, apiKey: Option<string>, urls: UrlParser,
                        body: Result<Value, Fault>, transport: Handoff -> Service,
                        before: ResponseState, priorAuth: Option<AuthInfo>)
    requires Gate(head, httpHost, apiKey, urls).Admit?
    ensures var d := Gate(head, httpHost, apiKey, urls);
      var x := Handle(d, body, transport, before, priorAuth);
      && x.auth == Some(d.auth)
      && (d.httpMethod != "POST" ==> x.handoff == Some(Handoff(d.auth, Undefined)))
      && (d.httpMethod == "POST" && body.Ok? ==> x.handoff == Some(Handoff(d.auth, body.value)))
      && (d.httpMethod == "POST" && body.Err? ==> x.handoff.None?)
      && (d.httpMethod == "POST" && body.Err? && !before.ended ==>
            x.response.statusCode == 500 && x.response.error == Some(FaultMessage(body.error)))
  {
  }

  class Response {
    var statusCode: int
    var contentType: Option<string>
    var error: Option<string>
    var ended: bool

    constructor ()
      ensures State() == ResponseState(200, None, None, false)
    {
      statusCode := 200;
      contentType := None;
      error := None;
      ended := false;
    }

    function State(): ResponseState
      reads this
    {
      ResponseState(statusCode, contentType, error, ended)
    }

    /** respondJson on this response. */
    method Respond(status: int, reason: string)
      modifies this
      ensures State() == RespondJson(old(State()), status, reason)
    {
      if ended {
        return;
      }
      statusCode := status;
      contentType := Some("application/json");
      error := Some(reason);
      ended := true;
    }

    /** The transport writes and ends the response itself. */
    method Serve(status: int, servedType: Option<string>)
      modifies this
      ensures State() == ResponseState(status, servedType, None, true)
    {
      statusCode := status;
      contentType := servedType;
      error := None;
      ended := true;
    }
  }

  /** An incoming request: its head is fixed, `auth` is assigned by the handler. */
  class Request {
    const head: RequestHead
    var auth: Option<AuthInfo>

    constructor (head: RequestHead)
      ensures this.head == head && auth.None?
    {
      this.head := head;
      auth := None;
    }
  }

  /** The request handler: gates, then the auth record, then the body for POST, then
      the transport; anything thrown on the way is answered with 500. */
  method HandleRequest(req: Request, res: Response, httpHost: string, apiKey: Option<string>, urls: UrlParser,
                       body: Result<Value, Fault>, transport: Handoff -> Service)
    returns (handoff: Option<Handoff>)
    modifies req, res
    ensures Exchange(res.State(), req.auth, handoff)
         == Handle(Gate(req.head, httpHost, apiKey, urls), body, transport, old(res.State()), old(req.auth))
  {
    var decision := Gate(req.head, httpHost, apiKey, urls);
    if decision.Reject? {
      res.Respond(decision.status, decision.reason);
      return None;
    }
    req.auth := Some(decision.auth);
    var parsed: Value := Undefined;
    if decision.httpMethod == "POST" {
      if body.Err? {
        res.Respond(500, FaultMessage(body.error));
        return None;
      }
      parsed := body.value;
    }
    var h := Handoff(decision.auth, parsed);
    match transport(h) {
      case Served(status, servedType) =>
        res.Serve(status, servedType);
      case Crashed(f) =>
        res.Respond(500, FaultMessage(f));
    }
    return Some(h);
  }
}
