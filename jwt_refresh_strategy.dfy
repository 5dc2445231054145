/** The refresh-token strategy: the raw token is read back from the
    `Authorization` header and attached to the verified payload. Signature
    and expiry checking are done by the JWT library and are not modelled. */
module JwtRefreshStrategy {
  import opened Wrappers
  import opened JsStrings
  import opened JsValues

  const TokenMissing: string := "Refresh token missing"
  const TokenMalformed: string := "Refresh token malformed"

  /** `extractToken`: no (or an empty) header is `missing`; otherwise the
      second field of `split(' ')`, which must exist and be non-empty. */
  function ExtractToken(authHeader: Option<string>): (r: Result<string>)
    ensures authHeader.None? || authHeader.value == [] ==> r == Err(Unauthorized(TokenMissing))
    ensures authHeader.Some? && authHeader.value != [] ==>
      var parts := Split(authHeader.value, ' ');
      if |parts| >= 2 && parts[1] != [] then r == Ok(parts[1])
      else r == Err(Unauthorized(TokenMalformed))
    ensures r.Ok? ==> r.value != [] && ' ' !in r.value
  {
    if authHeader.None? || authHeader.value == [] then Err(Unauthorized(TokenMissing))
    else
      var parts := Split(authHeader.value, ' ');
      SplitPiecesFree(authHeader.value, ' ');
      if |parts| < 2 || parts[1] == [] then Err(Unauthorized(TokenMalformed))
      else Ok(parts[1])
  }

  /** `Bearer <token>` gives the token back, whatever the scheme word and
      whatever follows a further space. */
  lemma SchemeThenToken(scheme: string, token: string, rest: string)
    requires ' ' !in scheme && ' ' !in token && token != []
    ensures ExtractToken(Some(scheme + " " + token)) == Ok(token)
    ensures ExtractToken(Some(scheme + " " + token + " " + rest)) == Ok(token)
  {
    SplitAfterSeparator(scheme, token, ' ');
    assert scheme + " " + token == scheme + [' '] + token;
    SplitFirst(token, [], ' ');
    assert token + [] == token;
    SplitAfterSeparator(scheme, token + " " + rest, ' ');
    assert scheme + " " + token + " " + rest == scheme + [' '] + (token + " " + rest);
    SplitAfterSeparator(token, rest, ' ');
    assert token + " " + rest == token + [' '] + rest;
  }

  /** A header that is only the scheme word is malformed. */
  lemma SchemeOnlyMalformed(scheme: string)
    requires scheme != [] && ' ' !in scheme
    ensures ExtractToken(Some(scheme)) == Err(Unauthorized(TokenMalformed))
  {
    SplitFirst(scheme, [], ' ');
    assert scheme + [] == scheme;
    SplitSingle(scheme, ' ');
  }

  lemma {:induction false} SplitSingle(s: string, sep: char)
    requires sep !in s
    ensures |Split(s, sep)| == 1
  {
    if s != [] {
      assert sep !in s[1..] by {
        forall k | 0 <= k < |s[1..]| ensures s[1..][k] != sep { assert s[1..][k] == s[k + 1]; }
      }
      SplitSingle(s[1..], sep);
    }
  }

  /** Two spaces after the scheme leave an empty second field: malformed. */
  lemma DoubleSpaceMalformed(scheme: string, token: string)
    requires ' ' !in scheme
    ensures ExtractToken(Some(scheme + "  " + token)) == Err(Unauthorized(TokenMalformed))
  {
    SplitAfterSeparator(scheme, " " + token, ' ');
    assert scheme + "  " + token == scheme + [' '] + (" " + token);
    SplitAfterSeparator([], token, ' ');
    assert " " + token == [] + [' '] + token;
  }

  /** `validate`: every payload field, plus `refreshToken` set to the extracted token. */
  function Validate(authHeader: Option<string>, payload: map<string, JsValue>): (r: Result<map<string, JsValue>>)
    ensures r.Err? <==> ExtractToken(authHeader).Err?
    ensures r.Err? ==> r.error == ExtractToken(authHeader).error
    ensures r.Ok? ==> "refreshToken" in r.value && r.value["refreshToken"] == Str(ExtractToken(authHeader).value)
    ensures r.Ok? ==> r.value.Keys == payload.Keys + {"refreshToken"}
    ensures r.Ok? ==> forall k :: k in payload && k != "refreshToken" ==> k in r.value && r.value[k] == payload[k]
  {
    var token :- ExtractToken(authHeader);
    Ok(payload["refreshToken" := Str(token)])
  }
}
