/** Configuration from the environment (src/config.ts): the boolean, positive
    integer and transport parsers, and loadConfig with its defaults. A thrown Error
    is an Err carrying its message. */
module Config {
  import opened Wrappers
  import opened Js

  const ApiBaseUrl := "https://api.shelv.dev"

  datatype TransportMode = Stdio | Http

  datatype McpConfig = McpConfig(
    apiBaseUrl: string,
    apiKey: Option<string>,
    transport: TransportMode,
    httpHost: string,
    httpPort: int,
    enableWriteTools: bool,
    searchMaxFiles: int,
    searchMaxBytes: int,
    searchMaxMatches: int,
    readMaxBytes: int)

  /** The process environment; a name that is not in the map is undefined. */
  type Env = map<string, string>

  function Lookup(env: Env, name: string): Option<string> {
    if name in env then Some(env[name]) else None
  }

  // ---------------------------------------------------------------------------
  // Parsers

  /** The spelling parseBoolean compares: trimmed and lower-cased. */
  function BooleanSpelling(value: string): string {
    Lower(Trim(value))
  }

  function ParseBoolean(value: Option<string>, fallback: bool): (r: Result<bool, string>)
    ensures value.None? ==> r == Ok(fallback)
    ensures value.Some? ==>
      && (r == Ok(true) <==> BooleanSpelling(value.value) in {"true", "1", "yes"})
      && (r == Ok(false) <==> BooleanSpelling(value.value) in {"false", "0", "no"})
      && (r.Err? ==> r.error == "Invalid boolean value: " + value.value)
  {
    match value
    case None => Ok(fallback)
    case Some(v) =>
      var normalized := BooleanSpelling(v);
      if normalized == "true" || normalized == "1" || normalized == "yes" then Ok(true)
      else if normalized == "false" || normalized == "0" || normalized == "no" then Ok(false)
      else Err("Invalid boolean value: " + v)
  }

  /** Lower-casing keeps whitespace and what is not whitespace. */
  lemma LowerWhitespace(c: char)
    ensures IsWhitespace(LowerChar(c)) <==> IsWhitespace(c)
  {
  }

  lemma LowerUnpadded(s: string)
    requires Unpadded(s)
    ensures Unpadded(Lower(s))
  {
    if s != [] {
      LowerWhitespace(s[0]);
      LowerWhitespace(s[|s| - 1]);
    }
  }

  lemma LowerIdempotent(s: string)
    ensures Lower(Lower(s)) == Lower(s)
  {
    LowerNoop(Lower(s));
  }

  /** The spelling is already normal. */
  lemma {:induction false} SpellingNormal(value: string)
    ensures BooleanSpelling(BooleanSpelling(value)) == BooleanSpelling(value)
  {
    var t := Trim(value);
    TrimIdempotent(value);
    TrimCharacterised(value);
    assert Unpadded(t);
    LowerUnpadded(t);
    TrimNoop(Lower(t));
    LowerIdempotent(t);
  }

  /** Parsing the normal spelling again reads the same value. */
  lemma BooleanSpellingIdempotent(value: string, fallback: bool)
    ensures ParseBoolean(Some(BooleanSpelling(value)), fallback).Ok?
            ==> ParseBoolean(Some(BooleanSpelling(value)), fallback) == ParseBoolean(Some(value), fallback)
  {
    SpellingNormal(value);
  }

  /** What "must be a positive integer" reports for the variable `name`. */
  function PositiveIntegerMessage(name: string): string {
    name + " must be a positive integer"
  }

  /** parseInteger: an undefined or blank value gives the fallback; anything else is
      read by Number.parseInt and must be a positive integer. */
  function ParseInteger(value: Option<string>, fallback: int, name: string): (r: Result<int, string>)
    ensures (value.None? || Trim(value.value) == "") ==> r == Ok(fallback)
    ensures value.Some? && Trim(value.value) != "" ==>
      && (r.Ok? <==> ParseInt(value.value).Some? && ParseInt(value.value).value > 0)
      && (r.Ok? ==> r == Ok(ParseInt(value.value).value))
      && (r.Err? ==> r.error == PositiveIntegerMessage(name))
  {
    if value.None? || Trim(value.value) == "" then Ok(fallback)
    else
      match ParseInt(value.value)
      case None => Err(PositiveIntegerMessage(name))
      case Some(parsed) => if parsed <= 0 then Err(PositiveIntegerMessage(name)) else Ok(parsed)
  }

  /** With a positive fallback every integer parseInteger answers is positive. */
  lemma ParseIntegerPositive(value: Option<string>, fallback: int, name: string)
    requires fallback > 0
    ensures ParseInteger(value, fallback, name).Ok? ==> ParseInteger(value, fallback, name).value > 0
  {
  }

  /** A positive numeral followed by anything that is not a digit reads as that
      number: "12abc" gives 12. */
  lemma ParseIntegerLeadingDigits(n: int, tail: string, fallback: int, name: string)
    requires n > 0 && (tail == [] || !IsDigit(tail[0]))
    ensures ParseInteger(Some(IntToDecimal(n) + tail), fallback, name) == Ok(n)
  {
    var s := IntToDecimal(n) + tail;
    ParseIntRoundTrip(n, tail);
    assert IntToDecimal(n) == NatToDecimal(n);
    assert IsDigit(s[0]) && !IsWhitespace(s[0]);
    assert TrimStart(s) == s;
  }

  /** "12abc" reads as 12. */
  lemma ParseIntegerTrailing(fallback: int, name: string)
    ensures ParseInteger(Some("12abc"), fallback, name) == Ok(12)
  {
    assert IntToDecimal(12) + "abc" == "12abc" by {
      assert NatToDecimal(12) == NatToDecimal(1) + [DigitChar(2)];
    }
    ParseIntegerLeadingDigits(12, "abc", fallback, name);
  }

  /** A numeral has nothing to trim. */
  lemma NumeralUnpadded(n: int)
    ensures IntToDecimal(n) != [] && Trim(IntToDecimal(n)) == IntToDecimal(n)
  {
    var d := IntToDecimal(n);
    var m := NatToDecimal(if n < 0 then -n else n);
    assert d[|d| - 1] == m[|m| - 1];
    Plain(d);
  }

  /** A numeral for zero or a negative number is refused. */
  lemma ParseIntegerNonPositive(n: int, fallback: int, name: string)
    requires n <= 0
    ensures ParseInteger(Some(IntToDecimal(n)), fallback, name) == Err(PositiveIntegerMessage(name))
  {
    var d := IntToDecimal(n);
    assert ParseInt(d) == Some(n) by {
      ParseIntRoundTrip(n, "");
      assert d + "" == d;
    }
    NumeralUnpadded(n);
  }

  const TransportMessage := "SHELV_MCP_TRANSPORT must be either 'stdio' or 'http'"

  /** parseTransport: undefined, empty or blank means stdio; otherwise the value must
      be exactly "stdio" or "http", with no padding. */
  function ParseTransport(value: Option<string>): (r: Result<TransportMode, string>)
    ensures (value.None? || Trim(value.value) == "") ==> r == Ok(Stdio)
    ensures value.Some? && Trim(value.value) != "" ==>
      && (r == Ok(Stdio) <==> value.value == "stdio")
      && (r == Ok(Http) <==> value.value == "http")
      && (r.Err? ==> r.error == TransportMessage)
  {
    if value.None? || value.value == "" || Trim(value.value) == "" then Ok(Stdio)
    else if value.value == "stdio" then Ok(Stdio)
    else if value.value == "http" then Ok(Http)
    else Err(TransportMessage)
  }

  lemma TransportTcp()
    ensures ParseTransport(Some("tcp")) == Err(TransportMessage)
  {
    Plain("tcp");
  }

  lemma TransportPadded()
    ensures ParseTransport(Some(" http")) == Err(TransportMessage)
  {
    Plain("http");
    assert " http"[1..] == "http";
    assert TrimStart(" http") == TrimStart("http");
  }

  /** A literal that starts and ends with a visible character is its own trim. */
  lemma Plain(s: string)
    requires s != [] && !IsWhitespace(s[0]) && !IsWhitespace(s[|s| - 1])
    ensures Trim(s) == s && TrimStart(s) == s
  {
    TrimNoop(s);
  }

  // ---------------------------------------------------------------------------
  // loadConfig

  /** `value?.trim() || undefined` */
  function TrimmedOrUndefined(value: Option<string>): (r: Option<string>)
    ensures r.Some? ==> r.value != "" && Unpadded(r.value)
    ensures r.None? <==> value.None? || Trim(value.value) == ""
  {
    match value
    case None => None
    case Some(v) =>
      TrimIdempotent(v);
      if Trim(v) == "" then None else Some(Trim(v))
  }

  /** The nine variables loadConfig reads, each undefined or a string. */
  datatype Variables = Variables(
    apiKey: Option<string>,
    transport: Option<string>,
    httpHost: Option<string>,
    httpPort: Option<string>,
    enableWriteTools: Option<string>,
    searchMaxFiles: Option<string>,
    searchMaxBytes: Option<string>,
    searchMaxMatches: Option<string>,
    readMaxBytes: Option<string>)

  function Read(env: Env): Variables {
    Variables(
      Lookup(env, "SHELV_API_KEY"),
      Lookup(env, "SHELV_MCP_TRANSPORT"),
      Lookup(env, "SHELV_MCP_HTTP_HOST"),
      Lookup(env, "SHELV_MCP_HTTP_PORT"),
      Lookup(env, "SHELV_MCP_ENABLE_WRITE_TOOLS"),
      Lookup(env, "SHELV_MCP_SEARCH_MAX_FILES"),
      Lookup(env, "SHELV_MCP_SEARCH_MAX_BYTES"),
      Lookup(env, "SHELV_MCP_SEARCH_MAX_MATCHES"),
      Lookup(env, "SHELV_MCP_READ_MAX_BYTES"))
  }

  /** loadConfig: the fields in the order the source evaluates them; the first
      parser that throws decides the error. */
  function LoadConfig(env: Env): Result<McpConfig, string> {
    LoadVariables(Read(env))
  }

  function LoadVariables(v: Variables): Result<McpConfig, string>
  {
    var apiKey := TrimmedOrUndefined(v.apiKey);
    match ParseTransport(v.transport)
    case Err(e) => Err(e)
    case Ok(transport) =>
      var httpHost := TrimmedOrUndefined(v.httpHost).GetOr("127.0.0.1");
      match ParseInteger(v.httpPort, 3334, "SHELV_MCP_HTTP_PORT")
      case Err(e) => Err(e)
      case Ok(httpPort) =>
      match ParseBoolean(v.enableWriteTools, false)
      case Err(e) => Err(e)
      case Ok(enableWriteTools) =>
      match ParseInteger(v.searchMaxFiles, 500, "SHELV_MCP_SEARCH_MAX_FILES")
      case Err(e) => Err(e)
      case Ok(searchMaxFiles) =>
      match ParseInteger(v.searchMaxBytes, 5_000_000, "SHELV_MCP_SEARCH_MAX_BYTES")
      case Err(e) => Err(e)
      case Ok(searchMaxBytes) =>
      match ParseInteger(v.searchMaxMatches, 200, "SHELV_MCP_SEARCH_MAX_MATCHES")
      case Err(e) => Err(e)
      case Ok(searchMaxMatches) =>
      match ParseInteger(v.readMaxBytes, 250_000, "SHELV_MCP_READ_MAX_BYTES")
      case Err(e) => Err(e)
      case Ok(readMaxBytes) =>
        Ok(McpConfig(ApiBaseUrl, apiKey, transport, httpHost, httpPort, enableWriteTools,
                     searchMaxFiles, searchMaxBytes, searchMaxMatches, readMaxBytes))
  }

  /** loadConfig throws exactly when one of the parsers throws, and a bad transport
      is reported before any other bad variable. */
  lemma LoadFails(env: Env)
    ensures var v := Read(env);
      LoadConfig(env).Err? <==>
        || ParseTransport(v.transport).Err?
        || ParseInteger(v.httpPort, 3334, "SHELV_MCP_HTTP_PORT").Err?
        || ParseBoolean(v.enableWriteTools, false).Err?
        || ParseInteger(v.searchMaxFiles, 500, "SHELV_MCP_SEARCH_MAX_FILES").Err?
        || ParseInteger(v.searchMaxBytes, 5_000_000, "SHELV_MCP_SEARCH_MAX_BYTES").Err?
        || ParseInteger(v.searchMaxMatches, 200, "SHELV_MCP_SEARCH_MAX_MATCHES").Err?
        || ParseInteger(v.readMaxBytes, 250_000, "SHELV_MCP_READ_MAX_BYTES").Err?
    ensures ParseTransport(Read(env).transport).Err? ==> LoadConfig(env) == Err(TransportMessage)
  {
  }

  /** Every numeric field of a loaded configuration is positive. */
  predicate Positive(c: McpConfig) {
    c.httpPort > 0 && c.searchMaxFiles > 0 && c.searchMaxBytes > 0 && c.searchMaxMatches > 0 && c.readMaxBytes > 0
  }

  /** A loaded configuration has positive numbers, a trimmed non-empty API key when
      it has one, and a trimmed non-empty HTTP host. */
  lemma LoadedConfig(env: Env)
    requires LoadConfig(env).Ok?
    ensures var c := LoadConfig(env).value;
      && Positive(c)
      && (c.apiKey.Some? ==> c.apiKey.value != "" && Unpadded(c.apiKey.value))
      && c.httpHost != "" && Unpadded(c.httpHost)
      && c.apiBaseUrl == ApiBaseUrl
  {
    ParseIntegerPositive(Lookup(env, "SHELV_MCP_HTTP_PORT"), 3334, "SHELV_MCP_HTTP_PORT");
    ParseIntegerPositive(Lookup(env, "SHELV_MCP_SEARCH_MAX_FILES"), 500, "SHELV_MCP_SEARCH_MAX_FILES");
    ParseIntegerPositive(Lookup(env, "SHELV_MCP_SEARCH_MAX_BYTES"), 5_000_000, "SHELV_MCP_SEARCH_MAX_BYTES");
    ParseIntegerPositive(Lookup(env, "SHELV_MCP_SEARCH_MAX_MATCHES"), 200, "SHELV_MCP_SEARCH_MAX_MATCHES");
    ParseIntegerPositive(Lookup(env, "SHELV_MCP_READ_MAX_BYTES"), 250_000, "SHELV_MCP_READ_MAX_BYTES");
    assert Unpadded("127.0.0.1") by {
      assert !IsWhitespace('1');
    }
  }

  /** An empty environment gives the defaults. */
  lemma Defaults()
    ensures LoadConfig(map[]) == Ok(McpConfig(ApiBaseUrl, None, Stdio, "127.0.0.1", 3334, false,
                                              500, 5_000_000, 200, 250_000))
  {
  }

  /** How a transport mode is written in SHELV_MCP_TRANSPORT. */
  function TransportName(mode: TransportMode): string {
    match mode
    case Stdio => "stdio"
    case Http => "http"
  }

  function BooleanName(b: bool): string {
    if b then "true" else "false"
  }

  /** An environment that sets every variable explicitly. */
  function ExplicitEnv(apiKey: string, mode: TransportMode, host: string, port: int, writes: bool,
                       maxFiles: int, maxBytes: int, maxMatches: int, readMax: int): Env
  {
    map[
      "SHELV_API_KEY" := apiKey,
      "SHELV_MCP_TRANSPORT" := TransportName(mode),
      "SHELV_MCP_HTTP_HOST" := host,
      "SHELV_MCP_HTTP_PORT" := IntToDecimal(port),
      "SHELV_MCP_ENABLE_WRITE_TOOLS" := BooleanName(writes),
      "SHELV_MCP_SEARCH_MAX_FILES" := IntToDecimal(maxFiles),
      "SHELV_MCP_SEARCH_MAX_BYTES" := IntToDecimal(maxBytes),
      "SHELV_MCP_SEARCH_MAX_MATCHES" := IntToDecimal(maxMatches),
      "SHELV_MCP_READ_MAX_BYTES" := IntToDecimal(readMax)]
  }

  /** Explicit variables land in their fields: positive numerals are read back, the
      key and host are kept as written once they carry no padding. */
  lemma ExplicitValues(apiKey: string, mode: TransportMode, host: string, port: int, writes: bool,
                       maxFiles: int, maxBytes: int, maxMatches: int, readMax: int)
    requires apiKey != [] && Unpadded(apiKey) && host != [] && Unpadded(host)
    requires port > 0 && maxFiles > 0 && maxBytes > 0 && maxMatches > 0 && readMax > 0
    ensures LoadConfig(ExplicitEnv(apiKey, mode, host, port, writes, maxFiles, maxBytes, maxMatches, readMax))
         == Ok(McpConfig(ApiBaseUrl, Some(apiKey), mode, host, port, writes, maxFiles, maxBytes, maxMatches, readMax))
  {
    ExplicitRead(apiKey, mode, host, port, writes, maxFiles, maxBytes, maxMatches, readMax);
    TrimNoop(apiKey);
    TrimNoop(host);
    TransportNameReads(mode);
    BooleanNameReads(writes);
    NumeralReads(port, IntToDecimal(port), 3334, "SHELV_MCP_HTTP_PORT");
    NumeralReads(maxFiles, IntToDecimal(maxFiles), 500, "SHELV_MCP_SEARCH_MAX_FILES");
    NumeralReads(maxBytes, IntToDecimal(maxBytes), 5_000_000, "SHELV_MCP_SEARCH_MAX_BYTES");
    NumeralReads(maxMatches, IntToDecimal(maxMatches), 200, "SHELV_MCP_SEARCH_MAX_MATCHES");
    NumeralReads(readMax, IntToDecimal(readMax), 250_000, "SHELV_MCP_READ_MAX_BYTES");
  }

  /** Each variable of the explicit environment is read from its own name. */
  lemma ExplicitRead(apiKey: string, mode: TransportMode, host: string, port: int, writes: bool,
                     maxFiles: int, maxBytes: int, maxMatches: int, readMax: int)
    ensures Read(ExplicitEnv(apiKey, mode, host, port, writes, maxFiles, maxBytes, maxMatches, readMax))
         == Variables(Some(apiKey), Some(TransportName(mode)), Some(host), Some(IntToDecimal(port)),
                      Some(BooleanName(writes)), Some(IntToDecimal(maxFiles)), Some(IntToDecimal(maxBytes)),
                      Some(IntToDecimal(maxMatches)), Some(IntToDecimal(readMax)))
  {
  }

  lemma TransportNameReads(mode: TransportMode)
    ensures ParseTransport(Some(TransportName(mode))) == Ok(mode)
  {
    Plain(TransportName(mode));
  }

  lemma BooleanNameReads(b: bool)
    ensures ParseBoolean(Some(BooleanName(b)), false) == Ok(b)
  {
    Plain(BooleanName(b));
    LowerNoop(BooleanName(b));
  }

  /** The written numeral of a positive number reads back as that number. */
  lemma NumeralReads(n: int, numeral: string, fallback: int, name: string)
    requires n > 0 && numeral == IntToDecimal(n)
    ensures ParseInteger(Some(numeral), fallback, name) == Ok(n)
  {
    ParseIntegerLeadingDigits(n, "", fallback, name);
    assert numeral + "" == numeral;
  }
}
