/** internal/auth/jwt.go: the process-wide signing secret, password rules,
    e-mail normalisation, password hashing and the session token. */
module Jwt {
  import opened Wrappers
  import opened Strings
  import opened Jws

  const MinSecretLength: nat := 32
  const MinPasswordLength: nat := 8
  /** Tokens longer than this are refused before parsing. */
  const MaxTokenLength: nat := 1024
  const SessionIssuer: string := "empregabem-api"
  /** 24 hours, in seconds. */
  const SessionLifetime: nat := 86400

  const ShortPasswordError: string := "senha deve ter no mínimo 8 caracteres"
  const WeakPasswordError: string := "senha deve conter letras maiúsculas, minúsculas, números e caracteres especiais"
  /** The character class of the "special character" rule. */
  const SpecialChars: string := "!@#$%^&*()_+-=[]{};':\"\\|,.<>/?"

  /** The signing secret; "" until `Initialize` has run. */
  datatype Config = Config(secret: string)

  const Uninitialised: Config := Config("")

  predicate Initialised(cfg: Config) {
    |cfg.secret| > 0
  }

  /** `Initialize`: a secret shorter than 32 characters stops the process
      (a panic in Go, a Failure here); a longer one is installed as is. */
  function Initialize(secret: string): (r: Result<Config, string>)
    ensures r.Success? <==> |secret| >= MinSecretLength
    ensures r.Success? ==> r.value.secret == secret && Initialised(r.value)
  {
    if |secret| < MinSecretLength then Failure("JWT_SECRET deve ter no mínimo 32 caracteres")
    else Success(Config(secret))
  }

  // ----- password strength -----

  predicate IsSpecial(c: char) {
    c in SpecialChars
  }

  /** Whether some character of `s` satisfies `p`: a one-class regexp match. */
  function AnyChar(s: string, p: char -> bool): (r: bool)
    ensures r <==> exists i :: 0 <= i < |s| && p(s[i])
  {
    if |s| == 0 then false
    else if p(s[0]) then true
    else
      var r := AnyChar(s[1..], p);
      assert forall i :: 1 <= i < |s| ==> s[i] == s[1..][i - 1];
      r
  }

  /** `ValidatePasswordStrength`: None when the password is accepted, else the message. */
  function ValidatePasswordStrength(pw: string): (r: Option<string>)
    ensures |pw| < MinPasswordLength ==> r == Some(ShortPasswordError)
    ensures |pw| >= MinPasswordLength ==>
      (r.None? <==>
        && (exists i :: 0 <= i < |pw| && IsUpper(pw[i]))
        && (exists i :: 0 <= i < |pw| && IsLower(pw[i]))
        && (exists i :: 0 <= i < |pw| && IsDigit(pw[i]))
        && (exists i :: 0 <= i < |pw| && IsSpecial(pw[i])))
    ensures |pw| >= MinPasswordLength && r.Some? ==> r.value == WeakPasswordError
  {
    if |pw| < MinPasswordLength then Some(ShortPasswordError)
    else if !AnyChar(pw, IsUpper) || !AnyChar(pw, IsLower) || !AnyChar(pw, IsDigit) || !AnyChar(pw, IsSpecial)
    then Some(WeakPasswordError)
    else None
  }

  // ----- e-mail normalisation -----

  /** `SanitizeEmail`: trim surrounding whitespace, then lower-case. */
  function SanitizeEmail(email: string): (r: string)
    ensures |r| <= |email|
    ensures forall i :: 0 <= i < |r| ==> !IsUpper(r[i])
    ensures |r| > 0 ==> !IsSpace(r[0]) && !IsSpace(r[|r| - 1])
  {
    var t := TrimSpace(email);
    LowerKeepsEnds(t);
    ToLower(t)
  }

  /** The address kept is the lower-cased slice left once whitespace margins
      are cut from both ends. */
  lemma SanitizeEmailTrims(email: string)
    ensures exists i, j :: Trimmed(email, i, j, IsSpace) && SanitizeEmail(email) == ToLower(email[i..j])
  {
    TrimWhereSlice(email, IsSpace);
  }

  /** Whatever blank margins are cut, the address kept is the lower-cased rest:
      SanitizeEmail is `strings.ToLower(strings.TrimSpace(email))` and nothing else. */
  lemma SanitizeEmailSlice(email: string, i: int, j: int)
    requires Trimmed(email, i, j, IsSpace)
    ensures SanitizeEmail(email) == ToLower(email[i..j])
  {
    TrimWhereUnique(email, i, j, IsSpace);
  }

  /** Lower-casing text that neither starts nor ends with whitespace keeps it so. */
  lemma LowerKeepsEnds(t: string)
    requires |t| > 0 ==> !IsSpace(t[0]) && !IsSpace(t[|t| - 1])
    ensures |t| > 0 ==> !IsSpace(ToLower(t)[0]) && !IsSpace(ToLower(t)[|t| - 1])
  {
  }

  /** Normalising twice is normalising once, so stored addresses are fixed points. */
  lemma SanitizeEmailIdempotent(email: string)
    ensures SanitizeEmail(SanitizeEmail(email)) == SanitizeEmail(email)
  {
    var t := TrimSpace(email);
    var s := ToLower(t);
    assert forall i :: 0 <= i < |s| ==> (IsSpace(s[i]) <==> IsSpace(t[i]));
    TrimWhereOfTrimmed(s, IsSpace);
    ToLowerIdempotent(t);
  }

  /** Addresses differing only in letter case and surrounding whitespace
      normalise to the same address. */
  lemma SanitizeEmailIgnoresCaseAndBlanks(left: string, email: string, right: string)
    requires forall i :: 0 <= i < |left| ==> IsSpace(left[i])
    requires forall i :: 0 <= i < |right| ==> IsSpace(right[i])
    ensures SanitizeEmail(left + ToLower(email) + right) == SanitizeEmail(email)
  {
    TrimSpacePadded(left, ToLower(email), right);
    TrimSpaceLower(email);
    ToLowerIdempotent(TrimSpace(email));
  }

  // ----- password hashing -----

  /** bcrypt, as a pair of functions: `hash(pw, salt)` (None when bcrypt refuses
      the password) and `compare(digest, pw)`. */
  datatype Hasher = Hasher(hash: (string, nat) -> Option<string>, compare: (string, string) -> bool)

  /** A digest matches exactly the password it was made from. */
  ghost predicate Sound(h: Hasher) {
    forall pw, salt, other :: h.hash(pw, salt).Some? ==> (h.compare(h.hash(pw, salt).value, other) <==> other == pw)
  }

  /** `HashPassword` with cost 12; `salt` stands for bcrypt's random salt. */
  function HashPassword(h: Hasher, pw: string, salt: nat): Option<string> {
    h.hash(pw, salt)
  }

  /** OR of the byte-wise XORs, the accumulator of `subtle.ConstantTimeCompare`. */
  function OrXor(x: seq<bv8>, y: seq<bv8>): bv8
    requires |x| == |y|
  {
    if |x| == 0 then 0 else (x[0] ^ y[0]) | OrXor(x[1..], y[1..])
  }

  lemma {:induction false} OrXorZero(x: seq<bv8>, y: seq<bv8>)
    requires |x| == |y|
    ensures OrXor(x, y) == 0 <==> x == y
  {
    if |x| > 0 {
      OrXorZero(x[1..], y[1..]);
      assert (x[0] ^ y[0]) | OrXor(x[1..], y[1..]) == 0 <==> x[0] == y[0] && OrXor(x[1..], y[1..]) == 0;
      if x[0] == y[0] && x[1..] == y[1..] {
        assert x == [x[0]] + x[1..] && y == [y[0]] + y[1..];
      }
    }
  }

  /** `subtle.ConstantTimeCompare`: 1 when the slices are equal, 0 otherwise. */
  function ConstantTimeCompare(x: seq<bv8>, y: seq<bv8>): (r: int)
    ensures r == 0 || r == 1
    ensures r == 1 <==> x == y
  {
    if |x| != |y| then 0
    else
      OrXorZero(x, y);
      if OrXor(x, y) == 0 then 1 else 0
  }

  function BoolToByte(b: bool): bv8 {
    if b then 1 else 0
  }

  /** `CheckPasswordHash`: bcrypt's verdict, passed through a constant-time compare. */
  function CheckPasswordHash(h: Hasher, pw: string, digest: string): (r: bool)
    ensures r <==> h.compare(digest, pw)
  {
    ConstantTimeCompare([BoolToByte(h.compare(digest, pw))], [1]) == 1
  }

  /** With a sound hasher, a stored digest admits its own password and no other. */
  lemma HashThenCheck(h: Hasher, pw: string, salt: nat, other: string)
    requires Sound(h)
    requires HashPassword(h, pw, salt).Some?
    ensures CheckPasswordHash(h, other, HashPassword(h, pw, salt).value) <==> other == pw
  {
  }

  // ----- session tokens -----

  /** The claims `ValidateToken` hands back. */
  datatype SessionClaims = SessionClaims(id: string, kind: string, iss: string, iat: Option<nat>, nbf: Option<nat>, exp: Option<nat>)

  /** The key function of both validators: HMAC methods get the secret, any other is refused. */
  function KeyFunc(cfg: Config): Alg -> Option<string> {
    a => if IsHmac(a) then Some(cfg.secret) else None
  }

  /** What a token decodes to, checked against the secret and the clock without
      going through `Jws.Parse`: an HMAC token whose MAC under the secret matches
      and whose time claims hold. */
  predicate Authentic(cfg: Config, c: Codec, tok: string, now: nat) {
    && c.parse(tok).Some?
    && IsHmac(c.parse(tok).value.alg)
    && c.parse(tok).value.signature == c.mac(c.parse(tok).value.alg, cfg.secret, c.parse(tok).value.payload)
    && TimeValid(c.parse(tok).value.payload, now)
  }

  lemma ParseAuthentic(cfg: Config, c: Codec, tok: string, now: nat)
    ensures Parse(c, tok, now, KeyFunc(cfg)).Success? <==> Authentic(cfg, c, tok, now)
    ensures Parse(c, tok, now, KeyFunc(cfg)).Success? ==> Parse(c, tok, now, KeyFunc(cfg)).value == c.parse(tok).value.payload
  {
  }

  /** Why token issue or validation fails: no secret, oversized input, a library
      rejection, a foreign issuer, a failed random read, the explicit expiry check
      of the reset validator. */
  datatype TokenError = NotInitialised | TooLarge | Rejected(cause: ParseError) | WrongIssuer | RandomUnavailable | ResetExpired

  /** `GenerateToken`: an HS256 token for `id` of kind `kind`, issued at `now`. */
  function GenerateToken(cfg: Config, c: Codec, id: string, kind: string, now: nat): (r: Result<string, TokenError>)
    ensures r.Success? <==> Initialised(cfg)
    ensures r.Success? && Faithful(c) ==>
      && c.parse(r.value).Some?
      && var t := c.parse(r.value).value;
      && t.alg == HS256
      && t.payload.id == id && t.payload.kind == kind
      && t.payload.iss == SessionIssuer
      && t.payload.iat == Some(now) && t.payload.nbf == Some(now)
      && t.payload.exp == Some(now + SessionLifetime)
      && t.signature == c.mac(HS256, cfg.secret, t.payload)
  {
    if !Initialised(cfg) then Failure(NotInitialised)
    else
      var p := Payload(id, kind, "", "", "", SessionIssuer, Some(now), Some(now), Some(now + SessionLifetime));
      Success(Sign(c, cfg.secret, HS256, p))
  }

  /** `ValidateToken`: secret set, size bound, signature and time claims, issuer. */
  function ValidateToken(cfg: Config, c: Codec, tok: string, now: nat): (r: Result<SessionClaims, TokenError>)
    ensures !Initialised(cfg) ==> r == Failure(NotInitialised)
    ensures Initialised(cfg) && |tok| > MaxTokenLength ==> r == Failure(TooLarge)
    ensures r.Success? <==>
      Initialised(cfg) && |tok| <= MaxTokenLength && Authentic(cfg, c, tok, now)
      && c.parse(tok).value.payload.iss == SessionIssuer
    ensures r.Success? ==>
      var p := c.parse(tok).value.payload;
      r.value == SessionClaims(p.id, p.kind, p.iss, p.iat, p.nbf, p.exp)
  {
    ParseAuthentic(cfg, c, tok, now);
    if !Initialised(cfg) then Failure(NotInitialised)
    else if |tok| > MaxTokenLength then Failure(TooLarge)
    else
      match Parse(c, tok, now, KeyFunc(cfg))
      case Failure(e) => Failure(Rejected(e))
      case Success(p) =>
        if p.iss != SessionIssuer then Failure(WrongIssuer)
        else Success(SessionClaims(p.id, p.kind, p.iss, p.iat, p.nbf, p.exp))
  }

  /** A freshly issued session token validates to its own claims for 24 hours
      and is refused as expired from then on. */
  lemma {:induction false} SessionTokenRoundTrip(cfg: Config, c: Codec, id: string, kind: string, issued: nat, now: nat)
    requires Faithful(c) && Initialised(cfg)
    requires issued <= now
    requires |GenerateToken(cfg, c, id, kind, issued).value| <= MaxTokenLength
    ensures now < issued + SessionLifetime ==>
      ValidateToken(cfg, c, GenerateToken(cfg, c, id, kind, issued).value, now)
        == Success(SessionClaims(id, kind, SessionIssuer, Some(issued), Some(issued), Some(issued + SessionLifetime)))
    ensures now >= issued + SessionLifetime ==>
      ValidateToken(cfg, c, GenerateToken(cfg, c, id, kind, issued).value, now) == Failure(Rejected(Expired))
  {
    var p := Payload(id, kind, "", "", "", SessionIssuer, Some(issued), Some(issued), Some(issued + SessionLifetime));
    ParseSign(c, cfg.secret, HS256, p, now, KeyFunc(cfg));
  }
}
