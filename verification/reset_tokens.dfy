/** internal/auth/password_reset.go: the short-lived token of the password-reset flow. */
module ResetTokens {
  import opened Wrappers
  import opened Jws
  import opened Jwt
  import Hex

  const ResetIssuer: string := "empregabem-api-reset"
  /** 15 minutes, in seconds. */
  const ResetLifetime: nat := 900
  /** Random bytes behind the unique token mailed to the user. */
  const UniqueTokenBytes: nat := 32

  /** The claims `ValidatePasswordResetToken` hands back. */
  datatype ResetClaims = ResetClaims(
    email: string,
    userType: string,
    tokenHash: string,
    iss: string,
    iat: Option<nat>,
    nbf: Option<nat>,
    exp: Option<nat>)

  /** The signed token and the unique token it commits to. */
  datatype Issued = Issued(jwt: string, uniqueToken: string)

  /** `GeneratePasswordResetToken`: `random` is the outcome of reading 32 bytes
      from crypto/rand (None when the read fails). The token carries the
      normalised e-mail, the user type and `hashString` of the unique token. */
  function GeneratePasswordResetToken(cfg: Config, c: Codec, email: string, userType: string,
                                      random: Option<seq<Hex.Byte>>, now: nat): (r: Result<Issued, TokenError>)
    requires random.Some? ==> |random.value| == UniqueTokenBytes
    ensures !Initialised(cfg) ==> r == Failure(NotInitialised)
    ensures r.Success? <==> Initialised(cfg) && random.Some?
    ensures r.Success? ==>
      && |r.value.uniqueToken| == 2 * UniqueTokenBytes
      && Hex.IsLowerHex(r.value.uniqueToken)
      && Hex.Decode(r.value.uniqueToken) == random
    ensures r.Success? && Faithful(c) ==>
      && c.parse(r.value.jwt).Some?
      && var t := c.parse(r.value.jwt).value;
      && Hex.IsByteString(r.value.uniqueToken)
      && t.alg == HS256
      && t.payload.email == SanitizeEmail(email)
      && t.payload.userType == userType
      && t.payload.tokenHash == Hex.HashString(r.value.uniqueToken)
      && t.payload.iss == ResetIssuer
      && t.payload.iat == Some(now) && t.payload.nbf == Some(now)
      && t.payload.exp == Some(now + ResetLifetime)
      && t.signature == c.mac(HS256, cfg.secret, t.payload)
  {
    if !Initialised(cfg) then Failure(NotInitialised)
    else match Hex.GenerateSecureToken(UniqueTokenBytes, random)
      case Failure(_) => Failure(RandomUnavailable)
      case Success(unique) =>
        Hex.LowerHexIsByteString(unique);
        var p := Payload("", "", SanitizeEmail(email), userType, Hex.HashString(unique),
                         ResetIssuer, Some(now), Some(now), Some(now + ResetLifetime));
        Success(Issued(Sign(c, cfg.secret, HS256, p), unique))
  }

  /** `ValidatePasswordResetToken`: secret set, size bound, signature and time
      claims, the reset issuer, and a second explicit expiry test. */
  function ValidatePasswordResetToken(cfg: Config, c: Codec, tok: string, now: nat): (r: Result<ResetClaims, TokenError>)
    ensures !Initialised(cfg) ==> r == Failure(NotInitialised)
    ensures Initialised(cfg) && |tok| > MaxTokenLength ==> r == Failure(TooLarge)
    ensures r.Success? <==>
      Initialised(cfg) && |tok| <= MaxTokenLength && Authentic(cfg, c, tok, now)
      && c.parse(tok).value.payload.iss == ResetIssuer
    ensures r.Success? ==>
      var p := c.parse(tok).value.payload;
      r.value == ResetClaims(p.email, p.userType, p.tokenHash, p.iss, p.iat, p.nbf, p.exp)
  {
    ParseAuthentic(cfg, c, tok, now);
    if !Initialised(cfg) then Failure(NotInitialised)
    else if |tok| > MaxTokenLength then Failure(TooLarge)
    else
      match Parse(c, tok, now, KeyFunc(cfg))
      case Failure(e) => Failure(Rejected(e))
      case Success(p) =>
        if p.iss != ResetIssuer then Failure(WrongIssuer)
        else if p.exp.Some? && p.exp.value < now then Failure(ResetExpired)
        else Success(ResetClaims(p.email, p.userType, p.tokenHash, p.iss, p.iat, p.nbf, p.exp))
  }

  /** The explicit expiry test of the reset validator never decides anything:
      the library has already refused every token whose `exp` is not after `now`. */
  lemma ResetExpiryCheckRedundant(cfg: Config, c: Codec, tok: string, now: nat)
    ensures ValidatePasswordResetToken(cfg, c, tok, now) != Failure(ResetExpired)
  {
    var r := Parse(c, tok, now, KeyFunc(cfg));
    if r.Success? {
      assert TimeValid(r.value, now);
    }
  }

  /** A reset token validates to the claims it was issued with for 15 minutes
      and is refused as expired from then on. */
  lemma {:induction false} ResetTokenRoundTrip(cfg: Config, c: Codec, email: string, userType: string,
                                               random: seq<Hex.Byte>, issued: nat, now: nat)
    requires Faithful(c) && Initialised(cfg)
    requires |random| == UniqueTokenBytes
    requires issued <= now
    requires |GeneratePasswordResetToken(cfg, c, email, userType, Some(random), issued).value.jwt| <= MaxTokenLength
    ensures
      var i := GeneratePasswordResetToken(cfg, c, email, userType, Some(random), issued).value;
      Hex.IsByteString(i.uniqueToken) &&
      (now < issued + ResetLifetime ==>
        ValidatePasswordResetToken(cfg, c, i.jwt, now)
          == Success(ResetClaims(SanitizeEmail(email), userType, Hex.HashString(i.uniqueToken),
                                 ResetIssuer, Some(issued), Some(issued), Some(issued + ResetLifetime))))
    ensures now >= issued + ResetLifetime ==>
      ValidatePasswordResetToken(cfg, c, GeneratePasswordResetToken(cfg, c, email, userType, Some(random), issued).value.jwt, now)
        == Failure(Rejected(Expired))
  {
    var unique := Hex.Encode(random);
    Hex.LowerHexIsByteString(unique);
    var p := Payload("", "", SanitizeEmail(email), userType, Hex.HashString(unique),
                     ResetIssuer, Some(issued), Some(issued), Some(issued + ResetLifetime));
    ParseSign(c, cfg.secret, HS256, p, now, KeyFunc(cfg));
  }

  /** A token issued for an already sanitised e-mail validates to claims
      naming that same e-mail while it is live. */
  lemma SanitizedTokenRoundTrip(cfg: Config, c: Codec, email: string, userType: string,
                                random: seq<Hex.Byte>, issued: nat, now: nat)
    requires Faithful(c) && Initialised(cfg)
    requires |random| == UniqueTokenBytes
    requires issued <= now < issued + ResetLifetime
    requires |GeneratePasswordResetToken(cfg, c, SanitizeEmail(email), userType, Some(random), issued).value.jwt| <= MaxTokenLength
    ensures
      var i := GeneratePasswordResetToken(cfg, c, SanitizeEmail(email), userType, Some(random), issued).value;
      ValidatePasswordResetToken(cfg, c, i.jwt, now)
        == Success(ResetClaims(SanitizeEmail(email), userType, Hex.HashString(i.uniqueToken),
                               ResetIssuer, Some(issued), Some(issued), Some(issued + ResetLifetime)))
  {
    SanitizeEmailIdempotent(email);
    ResetTokenRoundTrip(cfg, c, SanitizeEmail(email), userType, random, issued, now);
  }

  /** A session token is never accepted as a reset token, nor the other way round. */
  lemma NoCrossUse(cfg: Config, c: Codec, tok: string, now: nat)
    ensures ValidateToken(cfg, c, tok, now).Success? ==> ValidatePasswordResetToken(cfg, c, tok, now).Failure?
    ensures ValidatePasswordResetToken(cfg, c, tok, now).Success? ==> ValidateToken(cfg, c, tok, now).Failure?
  {
  }
}
