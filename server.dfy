/** Choosing the Shelv API key a tool call runs with (src/server.ts): a bearer
    token that came with the request wins over the configured key, and whichever
    is used must carry the sk_ prefix. */
module Server {
  import opened Wrappers
  import opened Js
  import opened Errors

  const KeyPrefix := "sk_"

  function AuthFailure(message: string): (e: ToolError)
    ensures e.code == AuthError && e.status == Some(401) && e.retryable == Some(false)
    ensures e.message == message
  {
    ToolError(AuthError, message, Some(401), Undefined, Some(false))
  }

  const PrefixMessage := "Shelv API key must use sk_ prefix"
  const MissingKeyMessage := "Missing Shelv API key. Set SHELV_API_KEY or provide Authorization bearer token."

  /** validateApiKey: the trimmed token, which must start with sk_. */
  function ValidateApiKey(token: string): (r: Result<string, ToolError>)
    ensures r.Ok? <==> StartsWith(Trim(token), KeyPrefix)
    ensures r.Ok? ==> r.value == Trim(token)
    ensures r.Err? ==> r.error == AuthFailure(PrefixMessage)
  {
    var trimmed := Trim(token);
    if !StartsWith(trimmed, KeyPrefix) then Err(AuthFailure(PrefixMessage)) else Ok(trimmed)
  }

  /** A key that validates is an sk_ key without padding. */
  lemma ValidatedKeyShape(token: string)
    requires ValidateApiKey(token).Ok?
    ensures var key := ValidateApiKey(token).value;
      StartsWith(key, KeyPrefix) && Unpadded(key) && Trim(key) == key
  {
    assert Unpadded(Trim(token)) by {
      TrimCharacterised(token);
    }
    TrimIdempotent(token);
  }

  /** getApiKey: `requestToken` is the bearer token the transport attached to the
      call (authInfo.token), `configured` the key loaded from SHELV_API_KEY. */
  function GetApiKey(requestToken: Option<string>, configured: Option<string>): (r: Result<string, ToolError>)
    ensures requestToken.Some? && Trim(requestToken.value) != "" ==> r == ValidateApiKey(requestToken.value)
    ensures (requestToken.None? || Trim(requestToken.value) == "") && configured.Some? && configured.value != ""
            ==> r == ValidateApiKey(configured.value)
    ensures (requestToken.None? || Trim(requestToken.value) == "") && (configured.None? || configured.value == "")
            ==> r == Err(AuthFailure(MissingKeyMessage))
  {
    if requestToken.Some? && |Trim(requestToken.value)| > 0 then ValidateApiKey(requestToken.value)
    else if configured.Some? && configured.value != "" then ValidateApiKey(configured.value)
    else Err(AuthFailure(MissingKeyMessage))
  }

  /** Every key handed to a tool is a trimmed sk_ key, taken from the request when it
      sent one and from the configuration otherwise. */
  lemma {:induction false} ApiKeySource(requestToken: Option<string>, configured: Option<string>)
    requires GetApiKey(requestToken, configured).Ok?
    ensures var key := GetApiKey(requestToken, configured).value;
      && StartsWith(key, KeyPrefix) && Unpadded(key)
      && (if requestToken.Some? && Trim(requestToken.value) != ""
          then key == Trim(requestToken.value)
          else configured.Some? && key == Trim(configured.value))
  {
    if requestToken.Some? && Trim(requestToken.value) != "" {
      ValidatedKeyShape(requestToken.value);
    } else {
      ValidatedKeyShape(configured.value);
    }
  }

  /** A request token that is present but invalid is refused; the configured key is
      not tried in its place. */
  lemma NoFallbackAfterBadToken(requestToken: string, configured: Option<string>)
    requires Trim(requestToken) != "" && !StartsWith(Trim(requestToken), KeyPrefix)
    ensures GetApiKey(Some(requestToken), configured) == Err(AuthFailure(PrefixMessage))
  {
  }

  /** A blank request token counts as no token. */
  lemma BlankTokenIgnored(requestToken: string, configured: Option<string>)
    requires Trim(requestToken) == ""
    ensures GetApiKey(Some(requestToken), configured) == GetApiKey(None, configured)
  {
  }

  /** Every refusal is an authentication error with status 401 that is not retried. */
  lemma ApiKeyRefusals(requestToken: Option<string>, configured: Option<string>)
    requires GetApiKey(requestToken, configured).Err?
    ensures var e := GetApiKey(requestToken, configured).error;
      e.code == AuthError && e.status == Some(401) && e.retryable == Some(false)
      && (e.message == PrefixMessage || e.message == MissingKeyMessage)
  {
  }
}
