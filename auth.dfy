/**
 * The login handler: decode the credentials, compare them with the
 * configured user and password, mint claims that expire one hour later, and
 * sign them (HS256, RFC 7518 section 3.2). The environment, the clock and the
 * signer are inputs.
 */
module Auth {

  import opened Results
  import opened Http

  datatype Credentials = Credentials(username: string, password: string)

  /** The token's claims: the username, and the expiry in whole seconds since the Unix epoch. */
  datatype Claims = Claims(username: string, expiresAt: int)

  const NanosPerSecond: int := 1_000_000_000
  /** `1 * time.Hour`, in nanoseconds. */
  const TokenLifetime: int := 3600 * NanosPerSecond

  /** `os.Getenv`: an unset variable reads as the empty string. */
  function GetEnvVar(env: map<string, string>, key: string): (v: string)
    ensures key in env ==> v == env[key]
    ensures key !in env ==> v == ""
  {
    if key in env then env[key] else ""
  }

  /**
   * The claims minted at time `now` (nanoseconds since the Unix epoch): the
   * expiry is now plus one hour, cut down to a whole second as a JWT
   * NumericDate is.
   */
  function IssuedClaims(username: string, now: int): (c: Claims)
    ensures c.username == username
    ensures c.expiresAt * NanosPerSecond <= now + TokenLifetime < (c.expiresAt + 1) * NanosPerSecond
  {
    Claims(username, (now + TokenLifetime) / NanosPerSecond)
  }

  /** The submitted pair equals the configured APP_USER and APP_PASSWORD. */
  function Authorized(creds: Credentials, env: map<string, string>): (a: bool)
    ensures "APP_USER" in env && "APP_PASSWORD" in env ==>
              (a <==> creds == Credentials(env["APP_USER"], env["APP_PASSWORD"]))
    ensures "APP_USER" !in env && "APP_PASSWORD" !in env ==> (a <==> creds == Credentials("", ""))
    ensures "APP_USER" in env && "APP_PASSWORD" !in env ==> (a <==> creds == Credentials(env["APP_USER"], ""))
    ensures "APP_USER" !in env && "APP_PASSWORD" in env ==> (a <==> creds == Credentials("", env["APP_PASSWORD"]))
  {
    creds.username == GetEnvVar(env, "APP_USER") && creds.password == GetEnvVar(env, "APP_PASSWORD")
  }

  /**
   * POST /login. `sign` stands for signing the claims with the key JWT_SECRET:
   * a token, or None when signing fails.
   */
  function Login(body: Decoded<Credentials>, env: map<string, string>, now: int,
                 sign: (Claims, string) -> Option<string>): (resp: Response)
    ensures body.DecodeError? ==> resp == SendError(StatusBadRequest, "Invalid request body")
    ensures body.Decoded? && !Authorized(body.value, env) ==>
              resp == SendError(StatusUnauthorized, "Unauthorized")
    ensures body.Decoded? && Authorized(body.value, env)
            && sign(IssuedClaims(body.value.username, now), GetEnvVar(env, "JWT_SECRET")).None? ==>
              resp == SendError(StatusInternalServerError, "Internal Server Error")
    ensures resp.status == StatusOK <==>
              && body.Decoded? && Authorized(body.value, env)
              && sign(IssuedClaims(body.value.username, now), GetEnvVar(env, "JWT_SECRET")).Some?
    ensures resp.status == StatusOK ==>
              && resp.body.JsonStringMap?
              && resp.body.fields.Keys == {"token"}
              && resp.body.fields["token"]
                 == sign(IssuedClaims(body.value.username, now), GetEnvVar(env, "JWT_SECRET")).value
  {
    match body
    case DecodeError => SendError(StatusBadRequest, "Invalid request body")
    case Decoded(creds) =>
      var appUser := GetEnvVar(env, "APP_USER");
      var appPassword := GetEnvVar(env, "APP_PASSWORD");
      if creds.username != appUser || creds.password != appPassword then
        SendError(StatusUnauthorized, "Unauthorized")
      else
        var claims := IssuedClaims(creds.username, now);
        var secretKey := GetEnvVar(env, "JWT_SECRET");
        match sign(claims, secretKey)
        case None => SendError(StatusInternalServerError, "Internal Server Error")
        case Some(tokenString) => Response(StatusOK, JsonStringMap(map["token" := tokenString]))
  }

  /**
   * With APP_USER and APP_PASSWORD both unset, the empty username and password
   * are accepted: login does not fail closed.
   */
  lemma EmptyCredentialsAcceptedWhenUnset(env: map<string, string>, now: int,
                                          sign: (Claims, string) -> Option<string>)
    requires "APP_USER" !in env && "APP_PASSWORD" !in env
    ensures Login(Decoded(Credentials("", "")), env, now, sign).status != StatusUnauthorized
  {
  }
}
