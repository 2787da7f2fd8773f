/**
 * Authentication decisions of the backend: parsing the `Authorization`
 * header, the token guard in front of protected routes, the session
 * issuing route and the email checks. The identity provider's token
 * verification is an oracle: a function from a token to the claims it
 * carries, or None when the token does not verify.
 */
module Auth {
  import opened Wrappers

  /** The decoded claims of a verified ID token; the email claim may be absent. */
  datatype Claims = Claims(email: Option<string>)

  /** The identity provider's check of an ID token: None when it rejects the token. */
  type Verifier = string -> Option<Claims>

  const BearerPrefix: string := "Bearer "

  /** JavaScript truthiness of an optional string: an absent value and "" are falsy. */
  predicate Truthy(s: Option<string>)
  {
    s.Some? && s.value != ""
  }

  /** The text before the first space: what `split(" ")` yields as one segment. */
  function FirstSegment(s: string): (r: string)
    ensures r <= s
    ensures ' ' !in r
    ensures |r| < |s| ==> s[|r|] == ' '
  {
    if s == [] || s[0] == ' ' then [] else [s[0]] + FirstSegment(s[1..])
  }

  /** Splitting a space-free segment followed by a space (or nothing) gives the segment back. */
  lemma {:induction false} FirstSegmentOf(segment: string, rest: string)
    requires ' ' !in segment
    requires rest == [] || rest[0] == ' '
    ensures FirstSegment(segment + rest) == segment
  {
    if segment != [] {
      assert (segment + rest)[1..] == segment[1..] + rest;
      FirstSegmentOf(segment[1..], rest);
    }
  }

  /**
   * The token of an `Authorization` header: present only when the header
   * is present and starts with "Bearer "; then it is the second
   * space-separated segment, that is the text after the prefix up to the
   * next space.
   */
  function BearerToken(header: Option<string>): (token: Option<string>)
    ensures token.Some? <==> header.Some? && BearerPrefix <= header.value
    ensures token.Some? ==> BearerPrefix + token.value <= header.value && ' ' !in token.value
    ensures token.Some? && |BearerPrefix| + |token.value| < |header.value| ==>
              header.value[|BearerPrefix| + |token.value|] == ' '
  {
    if header.Some? && BearerPrefix <= header.value then
      var rest := header.value[|BearerPrefix|..];
      assert header.value == BearerPrefix + rest;
      Some(FirstSegment(rest))
    else
      None
  }

  /** A header built from the prefix, a space-free token and a space-led tail yields that token. */
  lemma BearerTokenOf(token: string, rest: string)
    requires ' ' !in token
    requires rest == [] || rest[0] == ' '
    ensures BearerToken(Some(BearerPrefix + token + rest)) == Some(token)
  {
    var header := BearerPrefix + token + rest;
    assert header[|BearerPrefix|..] == token + rest;
    FirstSegmentOf(token, rest);
  }

  datatype GuardResult = Unauthorized | Verified(claims: Claims)
  {
    /** The response the guard sends itself; a verified request goes on to the handler. */
    function Status(): Option<nat>
    {
      if Unauthorized? then Some(401) else None
    }
  }

  /**
   * The token guard of protected routes: 401 unless the header carries a
   * bearer token that the identity provider accepts; otherwise the
   * request goes on with that token's claims.
   */
  function Guard(header: Option<string>, verify: Verifier): (r: GuardResult)
    ensures BearerToken(header).None? ==> r == Unauthorized
    ensures BearerToken(header).Some? ==>
              (r.Verified? <==> verify(BearerToken(header).value).Some?)
    ensures r.Verified? ==> verify(BearerToken(header).value) == Some(r.claims)
  {
    match BearerToken(header)
    case None => Unauthorized
    case Some(token) =>
      match verify(token)
      case None => Unauthorized
      case Some(claims) => Verified(claims)
  }

  datatype UserAccess = Unauthenticated | Forbidden | Granted
  {
    function Status(): nat
    {
      match this
      case Unauthenticated => 401
      case Forbidden => 403
      case Granted => 200
    }
  }

  /**
   * Access to one user's enrollment list: the guard runs first (401), and
   * then the email in the path must equal the verified token's email
   * claim (403 otherwise, including when the claim is absent).
   */
  function ByUserAccess(header: Option<string>, verify: Verifier, pathEmail: string): (a: UserAccess)
    ensures a == Unauthenticated <==> Guard(header, verify) == Unauthorized
    ensures a == Granted <==>
              BearerToken(header).Some? &&
              verify(BearerToken(header).value) == Some(Claims(Some(pathEmail)))
  {
    match Guard(header, verify)
    case Unauthorized => Unauthenticated
    case Verified(claims) => if claims.email == Some(pathEmail) then Granted else Forbidden
  }

  datatype SessionResult = MissingCredentials | InvalidToken | EmailMismatch | Issued(email: string)
  {
    function Status(): nat
    {
      match this
      case MissingCredentials => 400
      case InvalidToken => 401
      case EmailMismatch => 401
      case Issued(_) => 200
    }

    function Message(): string
    {
      match this
      case MissingCredentials => "Missing email or Firebase token"
      case InvalidToken => "Invalid Firebase token"
      case EmailMismatch => "Invalid token or email mismatch"
      case Issued(_) => ""
    }
  }

  /**
   * The session route: both the submitted email and the ID token must be
   * truthy (400), the token must verify (401) and its email claim must be
   * the submitted email (401); only then is a session issued for that email.
   */
  function IssueSession(email: Option<string>, token: Option<string>, verify: Verifier): (r: SessionResult)
    ensures r == MissingCredentials <==> !Truthy(email) || !Truthy(token)
    ensures r == InvalidToken <==> Truthy(email) && Truthy(token) && verify(token.value).None?
    ensures r.Issued? <==> Truthy(email) && Truthy(token) && verify(token.value) == Some(Claims(email))
    ensures r.Issued? ==> email == Some(r.email) && r.email != ""
  {
    if !Truthy(email) || !Truthy(token) then MissingCredentials
    else match verify(token.value)
      case None => InvalidToken
      case Some(claims) => if claims.email != email then EmailMismatch else Issued(email.value)
  }

  /**
   * The owner filter of the course list: a caller whose bearer token
   * verifies and carries a non-empty email sees only the courses owned by
   * that email; every other caller, including one with a bad token, gets
   * the unfiltered list (None).
   */
  function CourseOwnerFilter(header: Option<string>, verify: Verifier): (owner: Option<string>)
    ensures owner.Some? ==>
              owner.value != "" &&
              BearerToken(header).Some? &&
              verify(BearerToken(header).value) == Some(Claims(owner))
    ensures (BearerToken(header).Some? && verify(BearerToken(header).value).Some? &&
             Truthy(verify(BearerToken(header).value).value.email)) ==> owner.Some?
  {
    match BearerToken(header)
    case None => None
    case Some(token) =>
      match verify(token)
      case None => None
      case Some(claims) => if Truthy(claims.email) then claims.email else None
  }
}
