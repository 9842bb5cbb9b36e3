/** Error normalisation (src/errors.ts): the tool error record, the error kinds a
    handler can throw, and their mapping onto tool errors. */
module Errors {
  import opened Wrappers
  import opened Js

  datatype ErrorCode =
    | InputError
    | AuthError
    | BillingRequired
    | NotFound
    | NotReady
    | RateLimited
    | UpstreamError
    | LocalIoError

  /** A JSON value, standing for the source's `unknown` payloads (a response body, a
      thrown non-Error value, `details`). Undefined is the absent value. */
  datatype Value =
    | Undefined
    | Null
    | Bool(b: bool)
    | Num(n: int)
    | Str(s: string)
    | Arr(items: seq<Value>)
    | Obj(fields: map<string, Value>)

  /** The readonly fields of an McpToolError. */
  datatype ToolError = ToolError(
    code: ErrorCode,
    message: string,
    status: Option<int>,
    details: Value,
    retryable: Option<bool>)

  /** The codes an adapter error carries; the ones the mapping tells apart are named. */
  datatype AdapterCode = TreeFetchFailed | ArchiveTimeout | ArchiveParseFailed | OtherAdapterCode(name: string)

  /** What a tool handler can throw, in the order toMcpToolError tests them:
      an McpToolError, an ApiRequestError, an AdapterError, any other Error, or a
      thrown value that is not an Error at all. */
  datatype Thrown =
    | ToolFailure(error: ToolError)
    | ApiRequestFailure(httpMethod: string, path: string, status: int, body: Value)
    | AdapterFailure(adapterCode: AdapterCode, message: string)
    | PlainError(message: string)
    | NonError(value: Value)

  /** The INPUT_ERROR every validation failure raises: status 400, not retryable. */
  function InputFailure(message: string): (e: ToolError)
    ensures e.code == InputError && e.status == Some(400) && e.retryable == Some(false)
    ensures e.message == message
  {
    ToolError(InputError, message, Some(400), Undefined, Some(false))
  }

  /** HTTP status to error code. */
  function StatusToCode(status: int): (code: ErrorCode)
    ensures code == UpstreamError <==> status !in {400, 401, 402, 403, 404, 409, 429}
    ensures code != LocalIoError
    ensures code == AuthError <==> status == 401 || status == 403
  {
    if status == 400 then InputError
    else if status == 401 || status == 403 then AuthError
    else if status == 402 then BillingRequired
    else if status == 404 then NotFound
    else if status == 409 then NotReady
    else if status == 429 then RateLimited
    else UpstreamError
  }

  /** Statuses worth retrying: server errors and 429. */
  predicate IsRetryableStatus(status: int) {
    status >= 500 || status == 429
  }

  /** "(ddd)" starts at index i of m. */
  predicate StatusGroupAt(m: string, i: nat) {
    i + 5 <= |m| && m[i] == '(' && IsDigit(m[i + 1]) && IsDigit(m[i + 2]) && IsDigit(m[i + 3]) && m[i + 4] == ')'
  }

  /** The leftmost match of /\((\d{3})\)/ at or after `from`. */
  function FindStatusGroup(m: string, from: nat): (r: Option<nat>)
    ensures r.Some? ==>
      from <= r.value && StatusGroupAt(m, r.value) && forall k :: from <= k < r.value ==> !StatusGroupAt(m, k)
    ensures r.None? ==> forall k :: from <= k ==> !StatusGroupAt(m, k)
    decreases |m| - from
  {
    if from + 5 > |m| then None
    else if StatusGroupAt(m, from) then Some(from)
    else FindStatusGroup(m, from + 1)
  }

  /** The three digits of the leftmost "(ddd)" of a message, if any. */
  function ExtractStatusFromMessage(m: string): (r: Option<int>)
    ensures r.Some? ==> 0 <= r.value <= 999
    ensures r.None? <==> forall k :: 0 <= k ==> !StatusGroupAt(m, k)
    ensures r.Some? ==> FindStatusGroup(m, 0).Some?
                        && r.value == DecimalValue(m[FindStatusGroup(m, 0).value + 1..FindStatusGroup(m, 0).value + 4])
  {
    match FindStatusGroup(m, 0)
    case None => None
    case Some(i) =>
      ThreeDigitValue(m[i + 1..i + 4]);
      Some(DecimalValue(m[i + 1..i + 4]))
  }

  lemma ThreeDigitValue(d: string)
    requires |d| == 3 && AllDigits(d)
    ensures DecimalValue(d) <= 999
  {
    assert DecimalValue(d[..2]) <= 99 by {
      assert DecimalValue(d[..2][..1]) <= 9 by {
        assert d[..2][..1][..0] == [];
      }
    }
  }

  /** The message an ApiRequestError carries: the body's string `message`, or a
      fallback naming the status. */
  function ApiRequestMessage(status: int, body: Value): string
  {
    if body.Obj? && "message" in body.fields && body.fields["message"].Str? then body.fields["message"].s
    else "Shelv API request failed (" + IntToDecimal(status) + ")"
  }

  /** toMcpToolError(error, fallbackMessage) */
  function ToMcpToolError(error: Thrown, fallback: string): (r: ToolError)
    ensures error.ToolFailure? ==> r == error.error
    ensures !error.ToolFailure? ==> r.retryable.Some?
    ensures r.code == LocalIoError ==> error.ToolFailure?
  {
    match error
    case ToolFailure(e) => e
    case ApiRequestFailure(_, _, status, body) =>
      ToolError(StatusToCode(status), ApiRequestMessage(status, body), Some(status), body,
                Some(IsRetryableStatus(status)))
    case AdapterFailure(code, message) =>
      if code == TreeFetchFailed then
        var status := ExtractStatusFromMessage(message);
        var known := status.Some? && status.value != 0;
        ToolError(if known then StatusToCode(status.value) else UpstreamError, message, status, Undefined,
                  Some(known && IsRetryableStatus(status.value)))
      else
        ToolError(UpstreamError, message, None, Undefined, Some(code == ArchiveTimeout))
    case PlainError(message) =>
      ToolError(UpstreamError, if message == "" then fallback else message, None, Undefined, Some(false))
    case NonError(value) =>
      ToolError(UpstreamError, fallback, None, value, Some(false))
  }

  /** What serializeToolError puts in a tool result. */
  datatype SerializedError = SerializedError(
    code: ErrorCode,
    status: Option<int>,
    details: Value,
    retryable: Option<bool>,
    message: string)

  function SerializeToolError(e: ToolError): (s: SerializedError)
    ensures s.code == e.code && s.status == e.status && s.details == e.details
    ensures s.retryable == e.retryable && s.message == e.message
  {
    SerializedError(e.code, e.status, e.details, e.retryable, e.message)
  }

  // ---------------------------------------------------------------------------
  // Properties

  /** Normalising an already normalised error changes nothing. */
  lemma ToMcpToolErrorIdempotent(error: Thrown, fallback: string, fallback': string)
    ensures ToMcpToolError(ToolFailure(ToMcpToolError(error, fallback)), fallback') == ToMcpToolError(error, fallback)
  {
  }

  /** An API failure keeps its status, takes its code from the status table and is
      retryable exactly for 5xx and 429. */
  lemma ApiRequestMapping(httpMethod: string, path: string, status: int, body: Value, fallback: string)
    ensures var r := ToMcpToolError(ApiRequestFailure(httpMethod, path, status, body), fallback);
      && r.code == StatusToCode(status)
      && r.status == Some(status)
      && (r.retryable == Some(true) <==> status >= 500 || status == 429)
      && r.message == ApiRequestMessage(status, body)
  {
  }

  /** Of the adapter errors other than a tree fetch, only the archive timeout is
      retryable, and all of them are UPSTREAM_ERROR without a status. */
  lemma AdapterMapping(code: AdapterCode, message: string, fallback: string)
    requires code != TreeFetchFailed
    ensures var r := ToMcpToolError(AdapterFailure(code, message), fallback);
      && r.code == UpstreamError && r.status == None && r.message == message
      && (r.retryable == Some(true) <==> code == ArchiveTimeout)
  {
  }

  /** Any other Error is a non-retryable UPSTREAM_ERROR without a status or details,
      carrying its own message, or the fallback when that message is empty. */
  lemma PlainErrorMapping(message: string, fallback: string)
    ensures var r := ToMcpToolError(PlainError(message), fallback);
      && r.code == UpstreamError && r.status == None && r.details == Undefined && r.retryable == Some(false)
      && (message == "" ==> r.message == fallback)
      && (message != "" ==> r.message == message)
  {
  }

  /** A thrown value that is not an Error becomes the details of a non-retryable
      UPSTREAM_ERROR whose message is the fallback. */
  lemma NonErrorMapping(value: Value, fallback: string)
    ensures var r := ToMcpToolError(NonError(value), fallback);
      && r.code == UpstreamError && r.status == None && r.retryable == Some(false)
      && r.message == fallback && r.details == value
  {
  }

  /** A tree fetch failure whose message holds no "(ddd)", or "(000)", is a
      non-retryable UPSTREAM_ERROR. */
  lemma TreeFetchWithoutStatus(message: string, fallback: string)
    requires ExtractStatusFromMessage(message) in {None, Some(0)}
    ensures var r := ToMcpToolError(AdapterFailure(TreeFetchFailed, message), fallback);
      r.code == UpstreamError && r.retryable == Some(false)
  {
  }

  /** A tree fetch failure keeps its message and the status its message quotes; a
      quoted non-zero status picks the code from the status table and is retryable
      exactly for 5xx and 429, as an API failure with that status would be. */
  lemma TreeFetchMapping(message: string, fallback: string)
    ensures var s := ExtractStatusFromMessage(message);
      var r := ToMcpToolError(AdapterFailure(TreeFetchFailed, message), fallback);
      && r.message == message && r.status == s && r.details == Undefined
      && (s.Some? && s.value != 0 ==> r.code == StatusToCode(s.value) && r.retryable == Some(IsRetryableStatus(s.value)))
      && (s.None? || s.value == 0 ==> r.code == UpstreamError && r.retryable == Some(false))
  {
  }

  /** FindStatusGroup skips a prefix that holds no '('. */
  lemma {:induction false} SkipPrefix(prefix: string, rest: string, from: nat)
    requires from <= |prefix|
    requires forall k :: 0 <= k < |prefix| ==> prefix[k] != '('
    requires StatusGroupAt(rest, 0)
    ensures FindStatusGroup(prefix + rest, from) == Some(|prefix|)
    decreases |prefix| - from
  {
    var m := prefix + rest;
    assert m[|prefix|..|prefix| + 5] == rest[..5];
    assert StatusGroupAt(m, |prefix|);
    if from < |prefix| {
      assert m[from] == prefix[from];
      SkipPrefix(prefix, rest, from + 1);
    }
  }

  /** The status in "prefix(ddd)suffix" is found when the prefix has no '('. */
  lemma ExtractAfterPrefix(prefix: string, digits: string, suffix: string)
    requires forall k :: 0 <= k < |prefix| ==> prefix[k] != '('
    requires |digits| == 3 && AllDigits(digits)
    ensures ExtractStatusFromMessage(prefix + "(" + digits + ")" + suffix) == Some(DecimalValue(digits))
  {
    var rest := "(" + digits + ")" + suffix;
    assert prefix + "(" + digits + ")" + suffix == prefix + rest;
    assert StatusGroupAt(rest, 0);
    SkipPrefix(prefix, rest, 0);
    var m := prefix + rest;
    assert m[|prefix| + 1..|prefix| + 4] == digits;
  }

  /** Whatever precedes it, the leftmost "(ddd)" of a message gives the status. */
  lemma LeftmostStatus(m: string, i: nat)
    requires StatusGroupAt(m, i)
    requires forall k :: 0 <= k < i ==> !StatusGroupAt(m, k)
    ensures ExtractStatusFromMessage(m) == Some(DecimalValue(m[i + 1..i + 4]))
  {
  }

  lemma ThreeDigitNumeral(n: nat)
    requires 100 <= n <= 999
    ensures |NatToDecimal(n)| == 3
  {
    assert 10 <= n / 10 < 100 && n / 10 / 10 < 10;
    assert |NatToDecimal(n / 10 / 10)| == 1;
    assert |NatToDecimal(n / 10)| == 2;
  }

  /** Round trip: the fallback message of an ApiRequestError hands its status back to
      extractStatusFromMessage, for every three-digit status. */
  lemma ApiMessageStatusRoundTrip(status: int, body: Value)
    requires 100 <= status <= 999
    requires !(body.Obj? && "message" in body.fields && body.fields["message"].Str?)
    ensures ExtractStatusFromMessage(ApiRequestMessage(status, body)) == Some(status)
  {
    var prefix := "Shelv API request failed ";
    var digits := NatToDecimal(status);
    ThreeDigitNumeral(status);
    DecimalRoundTrip(status);
    assert ApiRequestMessage(status, body) == prefix + "(" + digits + ")" + "";
    ExtractAfterPrefix(prefix, digits, "");
  }

  /** The same failure reported as an ApiRequestError with no body message, or as an
      adapter tree-fetch failure quoting that message, maps to the same code, status
      and retryable flag. */
  lemma TreeFetchAgreesWithApiRequest(httpMethod: string, path: string, status: int, body: Value, fallback: string)
    requires 100 <= status <= 999
    requires !(body.Obj? && "message" in body.fields && body.fields["message"].Str?)
    ensures var api := ToMcpToolError(ApiRequestFailure(httpMethod, path, status, body), fallback);
      var tree := ToMcpToolError(AdapterFailure(TreeFetchFailed, ApiRequestMessage(status, body)), fallback);
      api.code == tree.code && api.status == tree.status && api.retryable == tree.retryable
  {
    ApiMessageStatusRoundTrip(status, body);
  }

  lemma TreeFetchStatus()
    ensures ExtractStatusFromMessage("Shelv request failed (409) for /tree") == Some(409)
  {
    var prefix := "Shelv request failed ";
    assert forall k :: 0 <= k < |prefix| ==> prefix[k] != '(';
    Decimal409();
    ExtractAfterPrefix(prefix, "409", " for /tree");
    TreeFetchMessage();
  }

  lemma TreeFetchMessage()
    ensures "Shelv request failed " + "(" + "409" + ")" + " for /tree" == "Shelv request failed (409) for /tree"
  {
  }

  lemma Decimal409()
    ensures AllDigits("409") && DecimalValue("409") == 409
  {
    assert "409"[..2] == "40" && "40"[..1] == "4" && "4"[..0] == "";
  }

  /** The adapter message of the errors test: "(409)" makes a NOT_READY error with status 409. */
  lemma TreeFetchExample(fallback: string)
    ensures var r := ToMcpToolError(AdapterFailure(TreeFetchFailed, "Shelv request failed (409) for /tree"), fallback);
      r.code == NotReady && r.status == Some(409)
  {
    TreeFetchStatus();
  }

  /** The API error of the errors test: a 404 becomes NOT_FOUND with status 404. */
  lemma ApiNotFoundExample(fallback: string)
    ensures var r := ToMcpToolError(ApiRequestFailure("GET", "/v1/shelves", 404, Obj(map["message" := Str("Shelf not found")])), fallback);
      r.code == NotFound && r.status == Some(404) && r.message == "Shelf not found"
  {
  }
}
