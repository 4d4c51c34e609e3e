/** The signed-token library the auth package relies on (JSON Web Tokens,
    RFC 7519, in the compact JWS form of RFC 7515), with serialisation and
    the MAC left abstract: a `Codec` supplies them as function values, and
    `Faithful` is the one equation the code relies on. */
module Jws {
  import opened Wrappers

  /** The `alg` header values the library knows, plus any other name. */
  datatype Alg = HS256 | HS384 | HS512 | RS256 | ES256 | EdDSA | NoneAlg | Unregistered(name: string)

  /** The HMAC family (`*jwt.SigningMethodHMAC`), section 3.2 of RFC 7518. */
  predicate IsHmac(a: Alg) {
    a == HS256 || a == HS384 || a == HS512
  }

  /** The claim set of a token. JSON decoding into a Go struct keeps only that
      struct's fields, so one record with every field used by either token kind
      stands for the payload; a field the issuer did not write decodes as "".
      `iss`, `iat`, `nbf` and `exp` are the registered claims of sections 4.1.1,
      4.1.6, 4.1.5 and 4.1.4 of RFC 7519, times in whole seconds. */
  datatype Payload = Payload(
    id: string,
    kind: string,
    email: string,
    userType: string,
    tokenHash: string,
    iss: string,
    iat: Option<nat>,
    nbf: Option<nat>,
    exp: Option<nat>)

  /** A decoded token: header algorithm, claims and signature. */
  datatype Token = Token(alg: Alg, payload: Payload, signature: string)

  /** Compact serialisation, its parser, and the MAC keyed by a secret. */
  datatype Codec = Codec(
    serialize: Token -> string,
    parse: string -> Option<Token>,
    mac: (Alg, string, Payload) -> string)

  /** Parsing a serialised token gives it back. */
  ghost predicate Faithful(c: Codec) {
    forall t :: c.parse(c.serialize(t)) == Some(t)
  }

  /** `jwt.NewWithClaims(alg, claims).SignedString(key)`. */
  function Sign(c: Codec, key: string, alg: Alg, p: Payload): string {
    c.serialize(Token(alg, p, c.mac(alg, key, p)))
  }

  datatype ParseError = Malformed | UnknownMethod | KeyRejected | SignatureInvalid | Expired | NotYetValid

  /** The default claim validation of the library: `exp`, when present, must lie
      strictly after `now`, and `nbf`, when present, at or before it; `iat` is not checked. */
  predicate TimeValid(p: Payload, now: nat) {
    (p.exp.None? || now < p.exp.value) && (p.nbf.None? || p.nbf.value <= now)
  }

  /** `jwt.ParseWithClaims(s, claims, keyFunc)`: decode, look up the method named
      by `alg`, ask `keyFunc` for the key (it may refuse), check the signature,
      then validate the time claims. */
  function Parse(c: Codec, s: string, now: nat, keyFunc: Alg -> Option<string>): (r: Result<Payload, ParseError>)
    ensures r.Success? ==>
      && c.parse(s).Some?
      && keyFunc(c.parse(s).value.alg).Some?
      && c.parse(s).value.signature == c.mac(c.parse(s).value.alg, keyFunc(c.parse(s).value.alg).value, r.value)
      && c.parse(s).value.payload == r.value
      && TimeValid(r.value, now)
    ensures c.parse(s).None? ==> r == Failure(Malformed)
  {
    match c.parse(s)
    case None => Failure(Malformed)
    case Some(t) =>
      if t.alg.Unregistered? then Failure(UnknownMethod)
      else match keyFunc(t.alg)
        case None => Failure(KeyRejected)
        case Some(key) =>
          if t.signature != c.mac(t.alg, key, t.payload) then Failure(SignatureInvalid)
          else if t.payload.exp.Some? && !(now < t.payload.exp.value) then Failure(Expired)
          else if t.payload.nbf.Some? && now < t.payload.nbf.value then Failure(NotYetValid)
          else Success(t.payload)
  }

  /** A token signed with the key `keyFunc` hands out parses back to its claims
      while they are time-valid, and fails once `exp` has passed. */
  lemma ParseSign(c: Codec, key: string, alg: Alg, p: Payload, now: nat, keyFunc: Alg -> Option<string>)
    requires Faithful(c)
    requires !alg.Unregistered? && keyFunc(alg) == Some(key)
    ensures TimeValid(p, now) ==> Parse(c, Sign(c, key, alg, p), now, keyFunc) == Success(p)
    ensures p.exp.Some? && p.exp.value <= now ==> Parse(c, Sign(c, key, alg, p), now, keyFunc) == Failure(Expired)
  {
    assert c.parse(Sign(c, key, alg, p)) == Some(Token(alg, p, c.mac(alg, key, p)));
  }
}
