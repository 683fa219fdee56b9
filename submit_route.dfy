/**
 * `POST /api/submit` (`src/app/api/submit/route.ts`): the guards a
 * submission passes in order (size, rate limit, body, required fields,
 * address, handle, tweet URL), the row it inserts and the mapping of the
 * insert's outcome to a response. The rate limiter, the address normaliser,
 * the handle validator, the URL parser, SHA-256 and the insert are
 * parameters.
 */
module SubmitRoute {
  import opened Wrappers
  import opened JsText
  import opened Http
  import opened Utils
  import opened RateLimit

  const MaxContentLength: int := 5120
  const MaxUserAgent: nat := 255
  const DevSalt: string := "dev_salt_replace_in_prod"
  /** The Postgres `unique_violation` error code. */
  const UniqueViolation: string := "23505"

  const PayloadTooLarge: string := "Payload too large"
  const TooManyRequests: string := "Too Many Requests. Please wait 10 minutes."
  const MissingFields: string := "Missing required fields"
  const InvalidAddress: string := "Invalid Ethereum address format"
  const InvalidHandle: string := "Invalid Twitter handle format"
  const InvalidTweetUrl: string := "Invalid Tweet URL"
  const AlreadySubmitted: string := "This wallet or Twitter username has already submitted."

  /** The three fields of the JSON body; `None` when a field is absent. */
  datatype Fields = Fields(twitterUsername: Option<string>, walletAddress: Option<string>,
                           tweetUrl: Option<string>)

  /** What the route reads from the request: the `x-forwarded-for`,
      `content-length` and `user-agent` headers and the parsed body: `None`
      when it does not parse or is `null`, whose property read throws; any
      other value that is not an object reads as three absent fields. */
  datatype Request = Request(forwardedFor: Option<string>, contentLength: Option<string>,
                             body: Option<Fields>, userAgent: Option<string>)

  /** The collaborators the route calls:
      `limiter` is `None` when no limiter is configured, otherwise it answers
      `success` for a key; `salt` is `IP_HASH_SALT`. */
  datatype Env = Env(limiter: Option<string -> bool>,
                     normalizeAddress: string -> string,
                     isValidHandle: string -> bool,
                     parseUrl: string -> Option<ParsedUrl>,
                     salt: Option<string>,
                     sha256Hex: string -> string)

  /** The inserted row. */
  datatype Row = Row(twitterUsername: string, walletAddress: string, tweetUrl: string,
                     status: string, ipHash: string, userAgent: Option<string>)

  /** The outcome of the guards: a rejection, or the row to insert. */
  datatype Decision = Reject(status: nat, error: string) | Insert(row: Row)

  // ---------------------------------------------------------------------------
  // The guards

  /** `parseInt(contentLength || '0') > 5120`: NaN compares false. */
  function TooLarge(contentLength: Option<string>): (large: bool)
    ensures large <==> ParseInt(OrElse(contentLength, "0")).Int?
                       && ParseInt(OrElse(contentLength, "0")).value > MaxContentLength
  {
    match ParseInt(OrElse(contentLength, "0"))
    case NaN => false
    case Int(n) => n > MaxContentLength
  }

  /** An absent or empty header counts as 0 and passes. */
  lemma AbsentLengthPasses()
    ensures !TooLarge(None) && !TooLarge(Some(""))
  {
    assert OrElse(None, "0") == DecimalString(0);
    ParseIntDecimal(0);
  }

  /** A decimal header is compared by its value. */
  lemma DecimalLengthCompared(n: nat)
    ensures TooLarge(Some(DecimalString(n))) <==> n > MaxContentLength
  {
    ParseIntDecimal(n);
  }

  /** A header with no leading digits is NaN, and NaN passes the guard. */
  lemma NonNumericLengthPasses()
    ensures !TooLarge(Some("large"))
  {
    assert TrimStart("large") == "large" by {
      assert !IsWhitespace('l');
    }
    assert ParseUnsigned("large") == NaN by {
      assert !IsDigitIn('l', 10);
    }
  }

  /** The rate-limit key of a client address. */
  function RateKey(ip: string): (key: string)
    ensures StartsWith(key, "submit_ip_") && key[|"submit_ip_"|..] == ip
  {
    "submit_ip_" + ip
  }

  /** The request passes the limiter: none is configured, or it answers success. */
  predicate Admitted(limiter: Option<string -> bool>, ip: string) {
    limiter.None? || limiter.value(RateKey(ip))
  }

  /** `!value`: absent or empty. */
  predicate Blank(v: Option<string>) {
    v.None? || v.value == ""
  }

  /** The handle as stored: trimmed, with an '@' put in front unless it starts with one. */
  function NormalizeHandle(handle: string): (r: string)
    ensures StartsWith(r, "@") && Trimmed(r)
    ensures r == Trim(handle) || r == "@" + Trim(handle)
  {
    var t := Trim(handle);
    if StartsWith(t, "@") then t
    else
      AtTrimmed(t);
      "@" + t
  }

  /** An '@' in front of a trimmed string leaves it trimmed. */
  lemma AtTrimmed(t: string)
    requires Trimmed(t)
    ensures Trimmed("@" + t)
  {
    if t != [] {
      assert ("@" + t)[|t|] == t[|t| - 1];
    }
  }

  /** Normalising a stored handle changes nothing. */
  lemma NormalizeHandleIdempotent(handle: string)
    ensures NormalizeHandle(NormalizeHandle(handle)) == NormalizeHandle(handle)
  {
    TrimOfTrimmed(NormalizeHandle(handle));
  }

  /** A handle of whitespace alone becomes the bare "@". */
  lemma BlankHandleBecomesAt(handle: string)
    requires AllWhitespace(handle)
    ensures NormalizeHandle(handle) == "@"
  {
    assert TrimStart(handle) == [];
  }

  /** A handle already starting with '@' is only trimmed; any other gains one '@'. */
  lemma NormalizeHandleCases(handle: string)
    ensures StartsWith(Trim(handle), "@") ==> NormalizeHandle(handle) == Trim(handle)
    ensures !StartsWith(Trim(handle), "@") ==> NormalizeHandle(handle)[1..] == Trim(handle)
  {
  }

  /** `ip + salt`, hashed; an unset or empty salt falls back to the development salt. */
  function IpHash(ip: string, env: Env): (h: string)
    ensures env.salt.Some? && env.salt.value != "" ==> h == env.sha256Hex(ip + env.salt.value)
    ensures env.salt.None? || env.salt.value == "" ==> h == env.sha256Hex(ip + DevSalt)
  {
    env.sha256Hex(ip + OrElse(env.salt, DevSalt))
  }

  /** `userAgent?.slice(0, 255)`. */
  function TruncateUserAgent(ua: Option<string>): (r: Option<string>)
    ensures r.None? <==> ua.None?
    ensures r.Some? ==> |r.value| <= MaxUserAgent && |r.value| <= |ua.value|
                        && r.value == ua.value[..|r.value|]
    ensures r.Some? && |ua.value| <= MaxUserAgent ==> r.value == ua.value
  {
    match ua
    case None => None
    case Some(s) => Some(Slice(s, 0, MaxUserAgent))
  }

  /** The checks on a body holding all three fields: address, then handle,
      then tweet URL; the row when all three pass. */
  function CheckFields(f: Fields, ip: string, userAgent: Option<string>, env: Env): (d: Decision)
    ensures Blank(f.twitterUsername) || Blank(f.walletAddress) || Blank(f.tweetUrl) ==>
              d == Reject(400, MissingFields)
    ensures d.Reject? ==> d.status == 400
    ensures d.Insert? ==>
              !Blank(f.twitterUsername) && !Blank(f.walletAddress) && !Blank(f.tweetUrl)
              && d.row == Row(NormalizeHandle(f.twitterUsername.value),
                              env.normalizeAddress(f.walletAddress.value), f.tweetUrl.value, "pending",
                              IpHash(ip, env), TruncateUserAgent(userAgent))
              && IsValidEthereumAddress(d.row.walletAddress)
              && env.isValidHandle(d.row.twitterUsername)
              && IsValidTwitterUrl(env.parseUrl(d.row.tweetUrl))
  {
    if Blank(f.twitterUsername) || Blank(f.walletAddress) || Blank(f.tweetUrl) then
      Reject(400, MissingFields)
    else
      var handle := NormalizeHandle(f.twitterUsername.value);
      var address := env.normalizeAddress(f.walletAddress.value);
      if !IsValidEthereumAddress(address) then Reject(400, InvalidAddress)
      else if !env.isValidHandle(handle) then Reject(400, InvalidHandle)
      else if !IsValidTwitterUrl(env.parseUrl(f.tweetUrl.value)) then Reject(400, InvalidTweetUrl)
      else Insert(Row(handle, address, f.tweetUrl.value, "pending",
                      IpHash(ip, env), TruncateUserAgent(userAgent)))
  }

  /** The guards of the route in their order; the first that fails decides. */
  function Decide(req: Request, env: Env): (d: Decision)
    ensures TooLarge(req.contentLength) ==> d == Reject(413, PayloadTooLarge)
    ensures d.Reject? ==> d.status in {413, 429, 500, 400}
    ensures d.Insert? ==>
              !TooLarge(req.contentLength) && Admitted(env.limiter, GetClientIP(req.forwardedFor))
              && req.body.Some?
              && d == CheckFields(req.body.value, GetClientIP(req.forwardedFor), req.userAgent, env)
  {
    var ip := GetClientIP(req.forwardedFor);
    if TooLarge(req.contentLength) then Reject(413, PayloadTooLarge)
    else if !Admitted(env.limiter, ip) then Reject(429, TooManyRequests)
    else if req.body.None? then Reject(500, InternalError)
    else CheckFields(req.body.value, ip, req.userAgent, env)
  }

  // ---------------------------------------------------------------------------
  // The order of the guards

  /** An oversized request is rejected whatever the limiter, the body and the
      validators would say. */
  lemma SizeGuardFirst(req1: Request, env1: Env, req2: Request, env2: Env)
    requires req1.contentLength == req2.contentLength && TooLarge(req1.contentLength)
    ensures Decide(req1, env1) == Decide(req2, env2) == Reject(413, PayloadTooLarge)
  {
  }

  /** A denied client gets 429 whatever its body holds. */
  lemma RateLimitBeforeBody(req: Request, env: Env, body: Option<Fields>)
    requires !TooLarge(req.contentLength) && !Admitted(env.limiter, GetClientIP(req.forwardedFor))
    ensures Decide(req, env) == Decide(req.(body := body), env) == Reject(429, TooManyRequests)
  {
  }

  /** Without a configured limiter the rate check is skipped: the decision is
      that of a limiter admitting every key. */
  lemma NoLimiterAdmitsAll(req: Request, env: Env)
    requires env.limiter.None?
    ensures Decide(req, env) == Decide(req, env.(limiter := Some(_ => true)))
  {
  }

  /** A missing field is reported before any format check runs. */
  lemma MissingBeforeFormat(req: Request, env: Env, normalizeAddress: string -> string,
                            isValidHandle: string -> bool, parseUrl: string -> Option<ParsedUrl>)
    requires !TooLarge(req.contentLength) && Admitted(env.limiter, GetClientIP(req.forwardedFor))
    requires req.body.Some?
    requires Blank(req.body.value.twitterUsername) || Blank(req.body.value.walletAddress)
             || Blank(req.body.value.tweetUrl)
    ensures Decide(req, env) == Reject(400, MissingFields)
    ensures Decide(req, env) == Decide(req, env.(normalizeAddress := normalizeAddress,
                                                 isValidHandle := isValidHandle, parseUrl := parseUrl))
  {
  }

  /** The request reaches the format checks: within size, admitted, with a
      body holding all three fields. */
  predicate Screened(req: Request, env: Env) {
    !TooLarge(req.contentLength) && Admitted(env.limiter, GetClientIP(req.forwardedFor))
    && req.body.Some? && !Blank(req.body.value.twitterUsername)
    && !Blank(req.body.value.walletAddress) && !Blank(req.body.value.tweetUrl)
  }

  /** The format checks run address, then handle, then URL: the first
      failing one names the error, whatever the later ones would say. */
  lemma FormatCheckOrder(req: Request, env: Env)
    requires Screened(req, env)
    ensures var f := req.body.value;
            var address := env.normalizeAddress(f.walletAddress.value);
            var handle := NormalizeHandle(f.twitterUsername.value);
            var urlOk := IsValidTwitterUrl(env.parseUrl(f.tweetUrl.value));
            (!IsValidEthereumAddress(address) ==> Decide(req, env) == Reject(400, InvalidAddress))
            && ((IsValidEthereumAddress(address) && !env.isValidHandle(handle))
                  ==> Decide(req, env) == Reject(400, InvalidHandle))
            && ((IsValidEthereumAddress(address) && env.isValidHandle(handle) && !urlOk)
                  ==> Decide(req, env) == Reject(400, InvalidTweetUrl))
            && ((IsValidEthereumAddress(address) && env.isValidHandle(handle) && urlOk)
                  ==> Decide(req, env).Insert?)
  {
  }

  /** A row is inserted exactly when every guard passes. */
  lemma InsertIffAllPass(req: Request, env: Env)
    ensures Decide(req, env).Insert? <==>
              Screened(req, env)
              && IsValidEthereumAddress(env.normalizeAddress(req.body.value.walletAddress.value))
              && env.isValidHandle(NormalizeHandle(req.body.value.twitterUsername.value))
              && IsValidTwitterUrl(env.parseUrl(req.body.value.tweetUrl.value))
  {
  }

  // ---------------------------------------------------------------------------
  // The insert and the response

  /** What the insert answered: success, or an error with its code. */
  datatype InsertResult = Inserted | InsertFailed(code: string)

  /** The route: the guards, then the insert; a unique violation is a 409 and
      any other insert error a 500. */
  function Submit(req: Request, env: Env, insert: Row -> InsertResult): (r: Response<()>)
    ensures Decide(req, env).Reject? ==>
              r == Fail(Decide(req, env).status, Decide(req, env).error)
    ensures Decide(req, env).Insert? ==>
              match insert(Decide(req, env).row)
              case Inserted => r == Ok(())
              case InsertFailed(code) =>
                r == (if code == UniqueViolation then Fail(409, AlreadySubmitted)
                      else Fail(500, InternalError))
  {
    match Decide(req, env)
    case Reject(status, error) => Fail(status, error)
    case Insert(row) =>
      match insert(row)
      case Inserted => Ok(())
      case InsertFailed(code) =>
        if code == UniqueViolation then Fail(409, AlreadySubmitted) else Fail(500, InternalError)
  }

  /** Only a request that passed every guard reaches the insert, and only a
      successful insert answers success. */
  lemma SuccessMeansInserted(req: Request, env: Env, insert: Row -> InsertResult)
    requires Submit(req, env, insert).Ok?
    ensures Decide(req, env).Insert? && insert(Decide(req, env).row) == Inserted
    ensures Decide(req, env).row.status == "pending"
  {
  }

  /** A 409 comes only from a unique violation on the insert. */
  lemma ConflictOnlyFromUniqueViolation(req: Request, env: Env, insert: Row -> InsertResult)
    requires Submit(req, env, insert) == Fail(409, AlreadySubmitted)
    ensures Decide(req, env).Insert? && insert(Decide(req, env).row) == InsertFailed(UniqueViolation)
  {
  }
}
