/**
 * The tunnel's two credential checks (golang/main.go): the token a browser
 * client presents when it opens its WebSocket, and the API key a proxied
 * HTTP request carries. Both are stubs in the source that admit a single
 * fixed user; the environment variable holding the expected API key is a
 * parameter here.
 */
module Auth {
  import opened Wrappers

  datatype AuthError =
    | MissingToken
    | InvalidToken
    | ServerConfiguration
    | InvalidApiKey

  const ValidToken := "valid-token-user-1"
  const SingleUser := "user-1"

  /** validateJWT: only the one fixed token is accepted, as `user-1`. */
  function ValidateJwt(token: string): (r: Result<string, AuthError>)
    ensures r.Ok? <==> token == ValidToken
    ensures r.Ok? ==> r.value == SingleUser
    ensures r == Err(MissingToken) <==> token == ""
    ensures r.Err? && token != "" ==> r.error == InvalidToken
  {
    if token == "" then Err(MissingToken)
    else if token == ValidToken then Ok(SingleUser)
    else Err(InvalidToken)
  }

  /** The key a request presents: the `x-goog-api-key` header, else the `key` query parameter. */
  function PresentedKey(headerKey: string, queryKey: string): (k: string)
    ensures headerKey != "" ==> k == headerKey
    ensures headerKey == "" ==> k == queryKey
  {
    if headerKey == "" then queryKey else headerKey
  }

  /**
   * authenticateHTTPRequest. An absent header or parameter reads as "", as
   * Header.Get and Query().Get return it.
   */
  function AuthenticateHttpRequest(headerKey: string, queryKey: string, expectedKey: string)
    : (r: Result<string, AuthError>)
    ensures expectedKey == "" <==> r == Err(ServerConfiguration)
    ensures r.Ok? <==> expectedKey != "" && PresentedKey(headerKey, queryKey) == expectedKey
    ensures r.Ok? ==> r.value == SingleUser
    ensures r.Err? && expectedKey != "" ==> r.error == InvalidApiKey
  {
    if expectedKey == "" then Err(ServerConfiguration)
    else if PresentedKey(headerKey, queryKey) == expectedKey then Ok(SingleUser)
    else Err(InvalidApiKey)
  }

  /** A non-empty header key decides alone: the query parameter is then never consulted. */
  lemma HeaderKeyTakesPrecedence(headerKey: string, q1: string, q2: string, expectedKey: string)
    requires headerKey != ""
    ensures AuthenticateHttpRequest(headerKey, q1, expectedKey)
         == AuthenticateHttpRequest(headerKey, q2, expectedKey)
  {
  }

  /** A request presenting no key at all is never admitted. */
  lemma NoCredentialsRejected(expectedKey: string)
    ensures AuthenticateHttpRequest("", "", expectedKey).Err?
  {
  }
}
