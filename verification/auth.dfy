/** The request guards of `auth.py`. A credential is an `Authorization`
    header using the Bearer scheme of section 2.1 of RFC 6750: the word
    "Bearer" (any letter case), one space, then the token. Verifying the
    JWT signature and expiry is a parameter. */
module Auth {
  import opened Outcome
  import opened Text

  datatype AuthOutcome<C> =
    | Anonymous
    | Authorized(claims: C)
    | Unauthorized(detail: string)

  const BearerPrefix: string := "bearer "

  /** A header that names the Bearer scheme. */
  predicate HasBearer(header: Option<string>) {
    Truthy(header) && StartsWith(Lower(header.value), BearerPrefix)
  }

  /** `authorization.split(" ", 1)[1].strip()` on a header that passed the
      scheme check: the text after the first space, which is the one after
      "bearer", stripped. */
  function TokenOf(header: string): (token: string)
    requires HasBearer(Some(header))
    ensures ' ' in header && IndexOf(header, ' ') == 6
    ensures token == PyStrip(header[7..])
  {
    var low := Lower(header);
    assert low[..7] == BearerPrefix;
    assert forall k | 0 <= k < 7 :: LowerChar(header[k]) == low[k] == BearerPrefix[k];
    assert header[6] == ' ';
    assert forall k | 0 <= k < 6 :: header[k] != ' ';
    assert ' ' !in header[..6];
    PyStrip(header[IndexOf(header, ' ') + 1..])
  }

  /** `decode_token`: the claims of a valid token, or 401 "Invalid token". */
  function DecodeToken<C>(token: string, decode: string -> Option<C>): (r: AuthOutcome<C>)
    ensures r.Authorized? <==> decode(token).Some?
    ensures decode(token).None? ==> r == Unauthorized("Invalid token")
    ensures decode(token).Some? ==> r.claims == decode(token).value
  {
    match decode(token)
    case None => Unauthorized("Invalid token")
    case Some(c) => Authorized(c)
  }

  /** `require_auth`: everyone passes while no passcode is configured;
      otherwise a Bearer header is required (401 "Missing credentials")
      and its token must decode (401 "Invalid token"). */
  function RequireAuth<C>(passcode: Option<string>, header: Option<string>, decode: string -> Option<C>): (r: AuthOutcome<C>)
    ensures !Truthy(passcode) ==> r == Anonymous
    ensures Truthy(passcode) && !HasBearer(header) ==> r == Unauthorized("Missing credentials")
    ensures Truthy(passcode) && HasBearer(header) ==> r == DecodeToken(PyStrip(header.value[7..]), decode)
    ensures r.Authorized? ==> HasBearer(header) && decode(PyStrip(header.value[7..])) == Some(r.claims)
  {
    if !Truthy(passcode) then Anonymous
    else RequireAdmin(header, decode)
  }

  /** `require_admin`: the Bearer check whether or not a passcode is set. */
  function RequireAdmin<C>(header: Option<string>, decode: string -> Option<C>): (r: AuthOutcome<C>)
    ensures !HasBearer(header) ==> r == Unauthorized("Missing credentials")
    ensures HasBearer(header) ==> r == DecodeToken(PyStrip(header.value[7..]), decode)
    ensures !r.Anonymous?
  {
    if !HasBearer(header) then Unauthorized("Missing credentials")
    else DecodeToken(TokenOf(header.value), decode)
  }

  /** A header built as "Bearer " followed by a token without surrounding
      whitespace hands exactly that token to the decoder. */
  lemma BearerRoundTrip<C>(token: string, decode: string -> Option<C>)
    requires PyStrip(token) == token
    ensures HasBearer(Some("Bearer " + token))
    ensures RequireAdmin(Some("Bearer " + token), decode) == DecodeToken(token, decode)
  {
    var h := "Bearer " + token;
    assert Lower(h)[..7] == BearerPrefix;
    assert h[7..] == token;
  }

  /** With a passcode configured the two guards agree. */
  lemma GuardsAgree<C>(passcode: string, header: Option<string>, decode: string -> Option<C>)
    requires passcode != ""
    ensures RequireAuth(Some(passcode), header, decode) == RequireAdmin(header, decode)
  {
  }
}
