/** The bearer-token middleware: it reads the `Authorization` header, has the
    token verified and copies the three claims into the caller's identity. */
module TokenValidation {
  import opened Wrappers
  import opened Errors
  import opened Strings
  import opened Entities

  /** The claims a verified token carries; a claim may be absent. */
  datatype TokenPayload = TokenPayload(username: Option<string>, storeId: Option<string>, role: Option<string>)

  const BearerPrefix: string := "Bearer "
  const BadHeader: Error := Raise(UnauthorizedAccess, "Missing or invalid Authorization header")
  const BadPayload: Error := Raise(UnauthorizedAccess, "Invalid token payload")

  /** A claim that is present and not the empty string. */
  predicate Present(claim: Option<string>) {
    claim.Some? && claim.value != ""
  }

  /** The token text: the header after the scheme prefix, trimmed. */
  function ExtractToken(header: string): (token: string)
    requires StartsWith(header, BearerPrefix)
    ensures |token| <= |header| - |BearerPrefix|
    ensures |token| > 0 ==> !IsJsWhitespace(token[0]) && !IsJsWhitespace(token[|token| - 1])
  {
    Trim(header[|BearerPrefix|..])
  }

  /** `TokenValidationMiddleware.verifyToken`. The header is the first of
      `authorization` and `Authorization` that is present (the `??` in the
      source); `verify` stands for the signature and expiry check and either
      yields the claims or fails. */
  function VerifyToken(header: Option<string>, verify: string -> Result<TokenPayload, Error>): (r: Result<Identity, Error>)
    ensures header.None? || header.value == "" || !StartsWith(header.value, BearerPrefix) ==> r == Failure(BadHeader)
    ensures (header.Some? && StartsWith(header.value, BearerPrefix) && verify(ExtractToken(header.value)).Failure?)
              ==> r == Failure(verify(ExtractToken(header.value)).error)
    ensures r.Success? <==>
              && header.Some? && StartsWith(header.value, BearerPrefix)
              && var p := verify(ExtractToken(header.value));
                 p.Success? && Present(p.value.username) && Present(p.value.storeId) && Present(p.value.role)
    ensures r.Success? ==>
              var p := verify(ExtractToken(header.value)).value;
              r.value == Identity(p.username.value, p.storeId.value, p.role.value)
    ensures (&& header.Some? && StartsWith(header.value, BearerPrefix)
             && verify(ExtractToken(header.value)).Success?
             && var p := verify(ExtractToken(header.value)).value;
                !(Present(p.username) && Present(p.storeId) && Present(p.role)))
              ==> r == Failure(BadPayload)
    ensures r.Failure? && r.error != BadHeader && r.error != BadPayload ==>
              && header.Some? && StartsWith(header.value, BearerPrefix)
              && verify(ExtractToken(header.value)).Failure?
              && r.error == verify(ExtractToken(header.value)).error
  {
    if header.None? || header.value == "" || !StartsWith(header.value, BearerPrefix) then Failure(BadHeader)
    else
      var payload :- verify(ExtractToken(header.value));
      if !Present(payload.username) || !Present(payload.storeId) || !Present(payload.role) then Failure(BadPayload)
      else Success(Identity(payload.username.value, payload.storeId.value, payload.role.value))
  }

  /** The token handed to `verify` is exactly the one the client put after the
      scheme, whatever whitespace surrounds it. */
  lemma ExtractTokenRoundTrip(token: string, padding: string, trailing: string)
    requires |token| > 0 ==> !IsJsWhitespace(token[0]) && !IsJsWhitespace(token[|token| - 1])
    requires forall k :: 0 <= k < |padding| ==> IsJsWhitespace(padding[k])
    requires forall k :: 0 <= k < |trailing| ==> IsJsWhitespace(trailing[k])
    ensures StartsWith(BearerPrefix + padding + token + trailing, BearerPrefix)
    ensures ExtractToken(BearerPrefix + padding + token + trailing) == token
  {
    var header := BearerPrefix + padding + token + trailing;
    assert header[..|BearerPrefix|] == BearerPrefix;
    var rest := header[|BearerPrefix|..];
    assert rest == padding + token + trailing;
    TrimPadded(padding, token, trailing);
  }

  /** Trimming removes exactly the whitespace padding around an unpadded core. */
  lemma TrimPadded(padding: string, core: string, trailing: string)
    requires |core| > 0 ==> !IsJsWhitespace(core[0]) && !IsJsWhitespace(core[|core| - 1])
    requires forall k :: 0 <= k < |padding| ==> IsJsWhitespace(padding[k])
    requires forall k :: 0 <= k < |trailing| ==> IsJsWhitespace(trailing[k])
    ensures Trim(padding + core + trailing) == core
  {
    assert padding + core + trailing == padding + (core + trailing);
    TrimStartSkips(padding, core + trailing);
    if |core| > 0 {
      assert (core + trailing)[0] == core[0];
      assert TrimStart(core + trailing) == core + trailing;
      TrimEndSkips(core, trailing);
      assert TrimEnd(core) == core;
    } else {
      assert core + trailing == [] + trailing;
      TrimStartSkips(trailing, []);
    }
  }

  /** Leading whitespace does not survive `TrimStart`. */
  lemma {:induction false} TrimStartSkips(padding: string, s: string)
    requires forall k :: 0 <= k < |padding| ==> IsJsWhitespace(padding[k])
    ensures TrimStart(padding + s) == TrimStart(s)
  {
    if |padding| == 0 {
      assert padding + s == s;
    } else {
      assert (padding + s)[0] == padding[0];
      assert (padding + s)[1..] == padding[1..] + s;
      TrimStartSkips(padding[1..], s);
    }
  }

  /** Trailing whitespace does not survive `TrimEnd`. */
  lemma {:induction false} TrimEndSkips(s: string, trailing: string)
    requires forall k :: 0 <= k < |trailing| ==> IsJsWhitespace(trailing[k])
    ensures TrimEnd(s + trailing) == TrimEnd(s)
  {
    if |trailing| == 0 {
      assert s + trailing == s;
    } else {
      var n := |s + trailing|;
      assert (s + trailing)[n - 1] == trailing[|trailing| - 1];
      assert (s + trailing)[..n - 1] == s + trailing[..|trailing| - 1];
      TrimEndSkips(s, trailing[..|trailing| - 1]);
    }
  }

  /** A request without a usable header is rejected before the token is
      looked at, whatever the verifier would have said. */
  lemma HeaderCheckedFirst(header: Option<string>, verify1: string -> Result<TokenPayload, Error>,
                           verify2: string -> Result<TokenPayload, Error>)
    requires header.None? || !StartsWith(header.value, BearerPrefix)
    ensures VerifyToken(header, verify1) == VerifyToken(header, verify2) == Failure(BadHeader)
  {
  }
}
