/**
 * Access-token refresh (RefreshTokenSerializer) and the tokens issued at
 * login (LoginSerializer). Signing and decoding belong to a JWT library
 * that is not modelled: a token is represented by the claims it carries,
 * and decoding a presented token is an input, `Extracted`, that says
 * either which payload came out or which error the library raised.
 */
module Tokens {
  import opened Wrappers
  import Orders

  /** TOKEN_TYPE. */
  datatype TokenType = Access | Refresh

  datatype User = User(id: Orders.UserId, username: string)

  /** A signed token, represented by its claims: the subject's id and its kind. */
  datatype Token = Token(subject: Orders.UserId, kind: TokenType)

  /**
   * A decoded payload. `tokenType` is None when the 'type' claim is missing
   * or is not one of the known kinds; `id` is None when the 'id' claim is
   * missing.
   */
  datatype Payload = Payload(id: Option<Orders.UserId>, tokenType: Option<TokenType>)

  /**
   * The errors the JWT library raises while decoding: ExpiredSignatureError,
   * DecodeError (with its subclasses, such as InvalidSignatureError), and any
   * other InvalidTokenError.
   */
  datatype JwtError = ExpiredSignature | DecodeFailure | OtherInvalidToken

  /** The outcome of extracting the payload of a presented token. */
  datatype Extracted = Decoded(payload: Payload) | Raised(error: JwtError)

  /** ERROR_MESSAGE, as far as refresh uses it. */
  datatype AuthMessage = TokenExpired | TokenDecodingError | TokenWrongTypeRefresh

  /**
   * What refresh can raise: AuthenticationFailed with a message or with
   * the framework's default message (None); the user lookup's DoesNotExist;
   * or a library error that no except clause catches, which propagates.
   */
  datatype AuthFailure =
    | AuthenticationFailed(detail: Option<AuthMessage>)
    | UserDoesNotExist
    | Propagated(error: JwtError)

  /** The except clauses of validate_refresh_token. */
  datatype Handler = OnExpiredSignature | OnDecodeError | OnInvalidToken

  /**
   * The exception classes each clause names. Each `JwtError` constructor
   * stands for a library class together with its subclasses, so
   * `DecodeFailure` includes signature failures (InvalidSignatureError is a
   * DecodeError). The model admits only InvalidTokenError outcomes, so the
   * last clause matches every `JwtError`.
   */
  predicate Catches(h: Handler, e: JwtError)
  {
    match h
    case OnExpiredSignature => e == ExpiredSignature
    case OnDecodeError => e == DecodeFailure
    case OnInvalidToken => true
  }

  /** The clauses in the order they are written. */
  const REFRESH_HANDLERS: seq<Handler> := [OnExpiredSignature, OnDecodeError, OnInvalidToken]

  /** Python's rule for a try statement: the first clause that matches handles the error. */
  function FirstCatch(hs: seq<Handler>, e: JwtError): (r: Option<nat>)
    ensures r.Some? ==> r.value < |hs| && Catches(hs[r.value], e)
    ensures r.Some? ==> forall j :: 0 <= j < r.value ==> !Catches(hs[j], e)
    ensures r.None? ==> forall j :: 0 <= j < |hs| ==> !Catches(hs[j], e)
    decreases |hs|
  {
    if hs == [] then None
    else if Catches(hs[0], e) then Some(0)
    else match FirstCatch(hs[1..], e)
      case None => None
      case Some(k) => Some(k + 1)
  }

  /** What each clause raises. */
  function HandlerFailure(h: Handler): AuthFailure
  {
    match h
    case OnExpiredSignature => AuthenticationFailed(Some(TokenExpired))
    case OnDecodeError => AuthenticationFailed(Some(TokenDecodingError))
    case OnInvalidToken => AuthenticationFailed(None)
  }

  /**
   * The decision of validate_refresh_token: decoding errors are mapped by
   * the except clauses in order; a payload whose 'type' is not REFRESH is
   * refused; otherwise the user whose id is the payload's 'id' is looked up.
   */
  function CheckRefreshToken(extracted: Extracted, users: map<Orders.UserId, User>): (r: Result<User, AuthFailure>)
    ensures extracted == Raised(ExpiredSignature) ==> r == Err(AuthenticationFailed(Some(TokenExpired)))
    ensures extracted == Raised(DecodeFailure) ==> r == Err(AuthenticationFailed(Some(TokenDecodingError)))
    ensures extracted == Raised(OtherInvalidToken) ==> r == Err(AuthenticationFailed(None))
    ensures extracted.Decoded? && extracted.payload.tokenType != Some(Refresh) ==>
              r == Err(AuthenticationFailed(Some(TokenWrongTypeRefresh)))
    ensures extracted.Decoded? && extracted.payload.tokenType == Some(Refresh) &&
            (extracted.payload.id.None? || extracted.payload.id.value !in users) ==>
              r == Err(UserDoesNotExist)
    ensures r.Ok? <==>
              extracted.Decoded? && extracted.payload.tokenType == Some(Refresh) &&
              extracted.payload.id.Some? && extracted.payload.id.value in users
    ensures r.Ok? ==> r.value == users[extracted.payload.id.value]
  {
    match extracted
    case Raised(e) =>
      (match FirstCatch(REFRESH_HANDLERS, e)
       case Some(k) => Err(HandlerFailure(REFRESH_HANDLERS[k]))
       case None => Err(Propagated(e)))
    case Decoded(payload) =>
      if payload.tokenType != Some(Refresh) then Err(AuthenticationFailed(Some(TokenWrongTypeRefresh)))
      else if payload.id.None? || payload.id.value !in users then Err(UserDoesNotExist)
      else Ok(users[payload.id.value])
  }

  /** jwt_util.extract_token: a token for `user` of the given kind. */
  function IssueToken(user: User, kind: TokenType): Token
  {
    Token(user.id, kind)
  }

  /** The payload the library extracts from a token it signed that has not expired. */
  function PayloadOf(t: Token): Payload
  {
    Payload(Some(t.subject), Some(t.kind))
  }

  /** Users stored under their own id. */
  predicate KeyedById(users: map<Orders.UserId, User>)
  {
    forall k :: k in users ==> users[k].id == k
  }

  /**
   * A refresh token issued at login to a stored user is accepted and
   * resolves to that user, while the access token issued with it is
   * refused as the wrong type.
   */
  lemma LoginTokensOnRefresh(user: User, users: map<Orders.UserId, User>)
    requires user.id in users && users[user.id] == user
    ensures CheckRefreshToken(Decoded(PayloadOf(IssueToken(user, Refresh))), users) == Ok(user)
    ensures CheckRefreshToken(Decoded(PayloadOf(IssueToken(user, Access))), users)
              == Err(AuthenticationFailed(Some(TokenWrongTypeRefresh)))
  {
  }

  /**
   * An expired token and a malformed one are both refused, with different
   * messages.
   */
  lemma ExpiredDistinctFromMalformed(users: map<Orders.UserId, User>)
    ensures CheckRefreshToken(Raised(ExpiredSignature), users).Err?
    ensures CheckRefreshToken(Raised(DecodeFailure), users).Err?
    ensures CheckRefreshToken(Raised(ExpiredSignature), users) != CheckRefreshToken(Raised(DecodeFailure), users)
  {
  }

  /** Each of the modelled InvalidTokenError outcomes is caught by one of the except clauses. */
  lemma HandlersCatchAll(e: JwtError)
    ensures FirstCatch(REFRESH_HANDLERS, e).Some?
  {
  }

  /**
   * The access token issued after a successful refresh is an ACCESS token
   * for the user named by the payload's 'id'.
   */
  lemma RefreshIssuesAccessForPayloadUser(extracted: Extracted, users: map<Orders.UserId, User>)
    requires KeyedById(users)
    requires CheckRefreshToken(extracted, users).Ok?
    ensures var t := IssueToken(CheckRefreshToken(extracted, users).value, Access);
      extracted.Decoded? && extracted.payload.id == Some(t.subject) && t.kind == Access
  {
  }

  class RefreshTokenSerializer {
    /** The user resolved by validation (`self.user`), None until then. */
    var user: Option<User>

    constructor ()
      ensures user == None
    {
      user := None;
    }

    /**
     * validate_refresh_token: on success records the resolved user; on
     * failure raises and leaves the recorded user as it was.
     */
    method ValidateRefreshToken(extracted: Extracted, users: map<Orders.UserId, User>) returns (r: Result<(), AuthFailure>)
      modifies this
      ensures CheckRefreshToken(extracted, users).Ok? ==>
                r == Ok(()) && user == Some(CheckRefreshToken(extracted, users).value)
      ensures CheckRefreshToken(extracted, users).Err? ==>
                r == Err(CheckRefreshToken(extracted, users).error) && user == old(user)
    {
      match CheckRefreshToken(extracted, users)
      case Err(f) =>
        r := Err(f);
      case Ok(u) =>
        user := Some(u);
        r := Ok(());
    }

    /** get_access_token: an ACCESS token for the recorded user. */
    method GetAccessToken() returns (t: Token)
      requires user.Some?
      ensures t.subject == user.value.id && t.kind == Access
    {
      t := IssueToken(user.value, Access);
    }
  }
}
