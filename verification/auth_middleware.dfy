/** internal/middleware/auth.go: from the Authorization header to either a
    rejection or the identity handed to the next handler. */
module AuthMiddleware {
  import opened Wrappers
  import opened Strings
  import opened Http
  import opened Jws
  import opened Jwt

  const MaxHeaderLength: nat := 1024
  const CompanyKind: string := "company"
  const CandidateKind: string := "candidate"

  const MissingToken: string := "Token não fornecido"
  const HeaderTooLarge: string := "Header de autorização muito grande"
  const BadFormat: string := "Formato de token inválido"
  const EmptyToken: string := "Token vazio"
  const InvalidToken: string := "Token inválido ou expirado"
  const CompaniesOnly: string := "Acesso restrito a empresas"
  const CandidatesOnly: string := "Acesso restrito a candidatos"

  /** Either the middleware answers (status and message) or it calls the next
      handler with `user_id` and `user_type` in the request context. */
  datatype Decision = Reject(status: nat, reason: string) | Proceed(userId: string, userType: string)

  /** The credentials part of `Bearer <token>` (section 2.1 of RFC 6750). */
  const BearerPrefix: string := "Bearer "

  /** `strings.SplitN(header, " ", 2)` yields exactly ["Bearer", rest] iff the
      header starts with "Bearer " and then `rest` is what follows; "Bearer"
      alone has no space and is refused. */
  lemma BearerSplit(header: string)
    ensures var parts := SplitFirst(header, ' ');
      (|parts| == 2 && parts[0] == "Bearer") <==> HasPrefix(header, BearerPrefix)
    ensures var parts := SplitFirst(header, ' ');
      HasPrefix(header, BearerPrefix) ==> parts[1] == header[|BearerPrefix|..]
  {
    var parts := SplitFirst(header, ' ');
    if HasPrefix(header, BearerPrefix) {
      assert header[6] == ' ';
      assert ' ' !in header[..6];
      assert IndexOf(header, ' ') == Some(6);
    }
    if |parts| == 2 && parts[0] == "Bearer" {
      assert header == parts[0] + [' '] + parts[1];
      assert header[..7] == BearerPrefix;
    }
  }

  /** `AuthMiddleware`: the header chain, checked in auth.go's order. */
  function Authenticate(cfg: Config, c: Codec, header: string, now: nat): (d: Decision)
    ensures header == "" ==> d == Reject(StatusUnauthorized, MissingToken)
    ensures header != "" && |header| > MaxHeaderLength ==> d == Reject(StatusUnauthorized, HeaderTooLarge)
    ensures header != "" && |header| <= MaxHeaderLength && !HasPrefix(header, BearerPrefix)
      ==> d == Reject(StatusUnauthorized, BadFormat)
    ensures (header != "" && |header| <= MaxHeaderLength && HasPrefix(header, BearerPrefix)
             && TrimSpace(header[|BearerPrefix|..]) == "") ==> d == Reject(StatusUnauthorized, EmptyToken)
    ensures d.Reject? ==> d.status == StatusUnauthorized
    ensures d.Proceed? <==>
      && |header| <= MaxHeaderLength
      && HasPrefix(header, BearerPrefix)
      && TrimSpace(header[|BearerPrefix|..]) != ""
      && ValidateToken(cfg, c, TrimSpace(header[|BearerPrefix|..]), now).Success?
    ensures d.Proceed? ==>
      var claims := ValidateToken(cfg, c, TrimSpace(header[|BearerPrefix|..]), now).value;
      d == Proceed(claims.id, claims.kind)
  {
    BearerSplit(header);
    if header == "" then Reject(StatusUnauthorized, MissingToken)
    else if |header| > MaxHeaderLength then Reject(StatusUnauthorized, HeaderTooLarge)
    else
      var parts := SplitFirst(header, ' ');
      if |parts| != 2 || parts[0] != "Bearer" then Reject(StatusUnauthorized, BadFormat)
      else
        var token := TrimSpace(parts[1]);
        if token == "" then Reject(StatusUnauthorized, EmptyToken)
        else match ValidateToken(cfg, c, token, now)
          case Failure(_) => Reject(StatusUnauthorized, InvalidToken)
          case Success(claims) => Proceed(claims.id, claims.kind)
  }

  /** Every token the validator refuses gets the same message, whatever the cause. */
  lemma UniformTokenRejection(cfg: Config, c: Codec, header: string, now: nat)
    requires |header| <= MaxHeaderLength && HasPrefix(header, BearerPrefix)
    requires TrimSpace(header[|BearerPrefix|..]) != ""
    requires ValidateToken(cfg, c, TrimSpace(header[|BearerPrefix|..]), now).Failure?
    ensures Authenticate(cfg, c, header, now) == Reject(StatusUnauthorized, InvalidToken)
  {
    BearerSplit(header);
  }

  /** A header carrying a freshly issued session token lets its owner through,
      with the id and kind it was issued for. */
  lemma IssuedTokenAuthenticates(cfg: Config, c: Codec, id: string, kind: string, issued: nat, now: nat)
    requires Faithful(c) && Initialised(cfg)
    requires issued <= now < issued + SessionLifetime
    requires |GenerateToken(cfg, c, id, kind, issued).value| + |BearerPrefix| <= MaxHeaderLength
    requires var t := GenerateToken(cfg, c, id, kind, issued).value;
      |t| > 0 && !IsSpace(t[0]) && !IsSpace(t[|t| - 1])
    ensures Authenticate(cfg, c, BearerPrefix + GenerateToken(cfg, c, id, kind, issued).value, now) == Proceed(id, kind)
  {
    var t := GenerateToken(cfg, c, id, kind, issued).value;
    var header := BearerPrefix + t;
    assert header[|BearerPrefix|..] == t;
    TrimWhereOfTrimmed(t, IsSpace);
    SessionTokenRoundTrip(cfg, c, id, kind, issued, now);
  }

  /** The kind gate run after authentication (`CompanyOnly`, `CandidateOnly`). */
  function RequireKind(d: Decision, kind: string, refusal: string): (r: Decision)
    ensures d.Reject? ==> r == d
    ensures d.Proceed? && d.userType != kind ==> r == Reject(StatusForbidden, refusal)
    ensures d.Proceed? && d.userType == kind ==> r == d
  {
    match d
    case Reject(_, _) => d
    case Proceed(_, userType) => if userType != kind then Reject(StatusForbidden, refusal) else d
  }

  /** `CompanyOnly(next)`: authentication, then 403 for anyone but a company. */
  function CompanyOnly(cfg: Config, c: Codec, header: string, now: nat): (d: Decision)
    ensures d.Proceed? <==> Authenticate(cfg, c, header, now).Proceed? && Authenticate(cfg, c, header, now).userType == CompanyKind
    ensures d.Reject? && d.status == StatusForbidden <==>
      Authenticate(cfg, c, header, now).Proceed? && Authenticate(cfg, c, header, now).userType != CompanyKind
    ensures Authenticate(cfg, c, header, now).Reject? ==> d == Authenticate(cfg, c, header, now)
    ensures d.Proceed? ==> d == Authenticate(cfg, c, header, now)
  {
    RequireKind(Authenticate(cfg, c, header, now), CompanyKind, CompaniesOnly)
  }

  /** `CandidateOnly(next)`: authentication, then 403 for anyone but a candidate. */
  function CandidateOnly(cfg: Config, c: Codec, header: string, now: nat): (d: Decision)
    ensures d.Proceed? <==> Authenticate(cfg, c, header, now).Proceed? && Authenticate(cfg, c, header, now).userType == CandidateKind
    ensures d.Reject? && d.status == StatusForbidden <==>
      Authenticate(cfg, c, header, now).Proceed? && Authenticate(cfg, c, header, now).userType != CandidateKind
    ensures Authenticate(cfg, c, header, now).Reject? ==> d == Authenticate(cfg, c, header, now)
    ensures d.Proceed? ==> d == Authenticate(cfg, c, header, now)
  {
    RequireKind(Authenticate(cfg, c, header, now), CandidateKind, CandidatesOnly)
  }

  /** `AuthMiddleware(inner)`: the header is checked, and only then `inner` runs. */
  function Wrap(cfg: Config, c: Codec, header: string, now: nat, inner: Decision): Decision {
    match Authenticate(cfg, c, header, now)
    case Reject(s, m) => Reject(s, m)
    case Proceed(_, _) => inner
  }

  /** The router wraps `CompanyOnly` and `CandidateOnly` in `AuthMiddleware` once
      more; the second authentication repeats the first and changes nothing. */
  lemma DoubleWrapIdempotent(cfg: Config, c: Codec, header: string, now: nat)
    ensures Wrap(cfg, c, header, now, CompanyOnly(cfg, c, header, now)) == CompanyOnly(cfg, c, header, now)
    ensures Wrap(cfg, c, header, now, CandidateOnly(cfg, c, header, now)) == CandidateOnly(cfg, c, header, now)
  {
  }
}
