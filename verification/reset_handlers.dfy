/** internal/http/handlers/password_reset.go: asking for a password reset and
    completing one.

    The request handler exists twice. `RequestResetAsWritten` follows the code:
    it stores a hash that no issued token can ever match, and it hands the
    token back in the reply only when the account exists. `RequestReset` is the
    evidently intended handler: it stores `hashString` of the unique token and
    replies the same whatever the store holds, delivering the token out of band.
    The completion handler `ResetPassword` is shared by both. */
module ResetHandlers {
  import opened Wrappers
  import opened Store
  import opened Http
  import opened Db
  import Hex
  import Jws
  import Jwt
  import ResetTokens
  import ResetStore
  import Companies
  import Candidates

  const InvalidData: string := "Dados inválidos"
  const MissingRequestFields: string := "Campos obrigatórios: email, user_type (company ou candidate)"
  const BadUserType: string := "user_type deve ser 'company' ou 'candidate'"
  const Generic: string := "Se o email existir, você receberá instruções para redefinir sua senha."
  const DevNote: string := "Em produção, o token seria enviado por email"
  const MissingResetFields: string := "Campos obrigatórios: token, new_password"
  const InvalidToken: string := "Token inválido ou expirado"
  const SpentToken: string := "Token inválido, expirado ou já utilizado"
  const VerifyFailed: string := "Erro ao verificar token"
  const HashFailed: string := "Erro ao processar senha"
  const UserNotFound: string := "Usuário não encontrado"
  const UpdateFailed: string := "Erro ao atualizar senha"
  const PasswordChanged: string := "Senha alterada com sucesso! Faça login com a nova senha."

  /** Length of the hash the as-written handler stores: 32 random bytes in hex. */
  const StoredHashLength: nat := 64

  /** A request body; `None` when the JSON does not decode. */
  datatype RequestResetRequest = RequestResetRequest(email: string, userType: string)
  datatype ResetPasswordRequest = ResetPasswordRequest(token: string, newPassword: string)

  /** The development reply: the generic message plus the token and a note. */
  datatype DevReply = DevReply(mensagem: string, devToken: string, devNote: string)

  /** A reset request's reply, the collections after it, and the token sent to
      the account's mailbox, if any. */
  datatype Requested = Requested(reply: Reply<DevReply>, db: Db, mailed: Option<string>)

  /** The input checks of `RequestReset`, in order; `None` when the body passes them. */
  function CheckRequest(req: Option<RequestResetRequest>): (r: Option<Reply<DevReply>>)
    ensures r.None? <==> req.Some? && req.value.email != "" && req.value.userType in {"company", "candidate"}
    ensures r.Some? ==> r.value.status == StatusBadRequest && IsError(r.value)
  {
    if req.None? then Some(Erro(StatusBadRequest, InvalidData))
    else if req.value.email == "" || req.value.userType == "" then Some(Erro(StatusBadRequest, MissingRequestFields))
    else if req.value.userType != "company" && req.value.userType != "candidate" then Some(Erro(StatusBadRequest, BadUserType))
    else None
  }

  /** The handler's existence test: the lookup in the collection of that user
      type succeeded (any lookup error counts as "no account"). */
  predicate AccountExists(db: Db, email: string, userType: string, faults: set<Call>) {
    if userType == "company" then Companies.GetByEmail(db.companies, email, faults).Success?
    else Candidates.GetByEmail(db.candidates, email, faults).Success?
  }

  /** The record a request stores; `Create` fills in id, creation time and `used`. */
  function ResetRecord(email: string, userType: string, jwt: string, tokenHash: string, now: nat): ResetStore.PasswordReset {
    ResetStore.PasswordReset("", email, userType, jwt, tokenHash, false, 0, now + ResetTokens.ResetLifetime, None)
  }

  /** Every stored hash has length `n`. */
  predicate HashesOfLength(s: seq<ResetStore.PasswordReset>, n: nat) {
    forall k :: 0 <= k < |s| ==> |s[k].tokenHash| == n
  }

  /** Storing a record whose hash has length `n` keeps all hashes of length `n`,
      whether or not the insert succeeds. */
  lemma StoreKeepsHashLength(s: seq<ResetStore.PasswordReset>, record: ResetStore.PasswordReset, env: Env, n: nat)
    ensures HashesOfLength(s, n) && |record.tokenHash| == n ==>
      HashesOfLength(IgnoreError(ResetStore.Create(s, record, env.freshId, env.now, env.faults), s), n)
  {
    var c := ResetStore.Create(s, record, env.freshId, env.now, env.faults);
    if c.Success? && HashesOfLength(s, n) && |record.tokenHash| == n {
      forall k | 0 <= k < |c.value|
        ensures |c.value[k].tokenHash| == n
      {
        if k < |s| {
          assert c.value[k] == c.value[..|s|][k];
        }
      }
    }
  }

  /** The hash the code stores: a second, unrelated random token, or the
      unique token itself when that read fails. */
  function StoredHashAsWritten(issued: ResetTokens.Issued, randomHash: Option<Bytes32>): (h: string)
    requires |issued.uniqueToken| == StoredHashLength
    ensures |h| == StoredHashLength
  {
    match Hex.GenerateSecureToken(32, randomHash)
    case Success(h) => h
    case Failure(_) => issued.uniqueToken
  }

  /** `RequestReset` as written. `randomJwt` and `randomHash` are the two reads
      from crypto/rand. */
  function RequestResetAsWritten(db: Db, env: Env, req: Option<RequestResetRequest>,
                                 randomJwt: Option<Bytes32>, randomHash: Option<Bytes32>): (r: Requested)
    ensures r.reply.status == (if CheckRequest(req).Some? then StatusBadRequest else StatusOK)
    ensures r.db == db.(resets := r.db.resets) && r.mailed.None?
    ensures CheckRequest(req).None? ==>
      (r.reply.body.Data? <==>
        AccountExists(db, Jwt.SanitizeEmail(req.value.email), req.value.userType, env.faults)
        && Jwt.Initialised(env.cfg) && randomJwt.Some?)
    ensures !r.reply.body.Data? ==> r.db == db
    ensures HashesOfLength(db.resets, StoredHashLength) ==> HashesOfLength(r.db.resets, StoredHashLength)
  {
    match CheckRequest(req)
    case Some(bad) => Requested(bad, db, None)
    case None =>
      var email := Jwt.SanitizeEmail(req.value.email);
      var userType := req.value.userType;
      if !AccountExists(db, email, userType, env.faults) then Requested(Mensagem(StatusOK, Generic), db, None)
      else match ResetTokens.GeneratePasswordResetToken(env.cfg, env.codec, email, userType, randomJwt, env.now)
        case Failure(_) => Requested(Mensagem(StatusOK, Generic), db, None)
        case Success(issued) =>
          var record := ResetRecord(email, userType, issued.jwt, StoredHashAsWritten(issued, randomHash), env.now);
          StoreKeepsHashLength(db.resets, record, env, StoredHashLength);
          var resets := IgnoreError(ResetStore.Create(db.resets, record, env.freshId, env.now, env.faults), db.resets);
          Requested(Ok(StatusOK, DevReply(Generic, issued.jwt, DevNote)), db.(resets := resets), None)
  }

  /** `RequestReset` as intended: the stored hash is `hashString` of the unique
      token, which is what the issued token carries; the reply is the generic
      message whatever happened, and the token goes to the mailbox. */
  function RequestReset(db: Db, env: Env, req: Option<RequestResetRequest>, randomJwt: Option<Bytes32>): (r: Requested)
    ensures r.reply.status == (if CheckRequest(req).Some? then StatusBadRequest else StatusOK)
    ensures CheckRequest(req).None? ==> r.reply == Mensagem(StatusOK, Generic)
    ensures r.db == db.(resets := r.db.resets)
    ensures r.mailed.Some? <==>
      CheckRequest(req).None?
      && AccountExists(db, Jwt.SanitizeEmail(req.value.email), req.value.userType, env.faults)
      && Jwt.Initialised(env.cfg) && randomJwt.Some?
    ensures r.mailed.None? ==> r.db == db
  {
    match CheckRequest(req)
    case Some(bad) => Requested(bad, db, None)
    case None =>
      var email := Jwt.SanitizeEmail(req.value.email);
      var userType := req.value.userType;
      if !AccountExists(db, email, userType, env.faults) then Requested(Mensagem(StatusOK, Generic), db, None)
      else match ResetTokens.GeneratePasswordResetToken(env.cfg, env.codec, email, userType, randomJwt, env.now)
        case Failure(_) => Requested(Mensagem(StatusOK, Generic), db, None)
        case Success(issued) => Requested(Mensagem(StatusOK, Generic), StoreIssued(db, env, email, userType, issued), Some(issued.jwt))
  }

  /** The write of the intended `RequestReset`: a record under `hashString` of
      the unique token, open for 15 minutes; a failed insert is ignored. */
  function StoreIssued(db: Db, env: Env, email: string, userType: string, issued: ResetTokens.Issued): (r: Db)
    requires Hex.IsLowerHex(issued.uniqueToken)
    ensures r == db.(resets := r.resets)
    ensures Hex.IsByteString(issued.uniqueToken)
    ensures ResetCreate !in env.faults && (forall k :: 0 <= k < |db.resets| ==> db.resets[k].id != env.freshId) ==>
      && |r.resets| == |db.resets| + 1
      && r.resets[|db.resets|].tokenHash == Hex.HashString(issued.uniqueToken)
      && !r.resets[|db.resets|].used
      && r.resets[|db.resets|].expiresAt == env.now + ResetTokens.ResetLifetime
  {
    Hex.LowerHexIsByteString(issued.uniqueToken);
    var record := ResetRecord(email, userType, issued.jwt, Hex.HashString(issued.uniqueToken), env.now);
    db.(resets := IgnoreError(ResetStore.Create(db.resets, record, env.freshId, env.now, env.faults), db.resets))
  }

  /** The store call that saves an account of `userType`. */
  function UpdateCall(userType: string): Call {
    if userType == "company" then CompanyUpdate else CandidateUpdate
  }

  /** The first account of `userType` holding `email` now has password
      `hashed` and `updatedAt = now`; every other account, and every other
      collection, is as it was. */
  predicate PasswordSet(before: Db, after: Db, email: string, userType: string, hashed: string, now: nat) {
    if userType == "company" then
      && Companies.GetByEmail(before.companies, email, {}).Success?
      && var a := Companies.GetByEmail(before.companies, email, {}).value;
      && after == before.(companies := Replace(before.companies, Companies.IdOf, a.(password := hashed, updatedAt := now)))
    else
      && Candidates.GetByEmail(before.candidates, email, {}).Success?
      && var a := Candidates.GetByEmail(before.candidates, email, {}).value;
      && after == before.(candidates := Replace(before.candidates, Candidates.IdOf, a.(password := hashed, updatedAt := now)))
  }

  /** The password update of `ResetPassword`: look the account up by the
      token's e-mail in the collection the token's user type names, then save
      it. A failed lookup of any kind is a 404, a failed save a 500. */
  function SetPassword(db: Db, env: Env, email: string, userType: string, hashed: string): (r: Result<Db, Reply<()>>)
    ensures r.Failure? ==> r.error.status in {StatusNotFound, StatusInternalServerError} && IsError(r.error)
    ensures r == Failure(Erro(StatusNotFound, UserNotFound)) <==> !AccountExists(db, email, userType, env.faults)
    ensures r == Failure(Erro(StatusInternalServerError, UpdateFailed)) <==>
                  AccountExists(db, email, userType, env.faults) && UpdateCall(userType) in env.faults
    ensures r.Success? <==> AccountExists(db, email, userType, env.faults) && UpdateCall(userType) !in env.faults
    ensures r.Success? ==> PasswordSet(db, r.value, email, userType, hashed, env.now)
    ensures env.faults == {} && AccountExists(db, email, userType, {}) ==> r.Success?
  {
    if userType == "company" then
      match Companies.GetByEmail(db.companies, email, env.faults)
      case Failure(_) => Failure(Erro(StatusNotFound, UserNotFound))
      case Success(a) =>
        match Companies.Update(db.companies, a.(password := hashed), env.now, env.faults)
        case Failure(_) => Failure(Erro(StatusInternalServerError, UpdateFailed))
        case Success(s) => Success(db.(companies := s))
    else
      match Candidates.GetByEmail(db.candidates, email, env.faults)
      case Failure(_) => Failure(Erro(StatusNotFound, UserNotFound))
      case Success(a) =>
        match Candidates.Update(db.candidates, a.(password := hashed), env.now, env.faults)
        case Failure(_) => Failure(Erro(StatusInternalServerError, UpdateFailed))
        case Success(s) => Success(db.(candidates := s))
  }

  /** The end of `ResetPassword`, once the token and its record have checked
      out: save the new password, then mark the redeemed record and every other
      open record of the user as used, ignoring errors from both writes. */
  function Finish(db: Db, env: Env, claims: ResetTokens.ResetClaims, resetId: ObjectId, hashed: string): (o: Outcome<()>)
    ensures o.reply.status in {StatusOK, StatusNotFound, StatusInternalServerError}
    ensures o.reply.status != StatusOK ==> o.db == db && IsError(o.reply)
    ensures o.reply.status == StatusOK ==>
      && o.reply == Mensagem(StatusOK, PasswordChanged)
      && PasswordSet(db.(resets := o.db.resets), o.db, claims.email, claims.userType, hashed, env.now)
    ensures o.reply.status == StatusOK && ResetInvalidateAll !in env.faults ==>
      forall k :: 0 <= k < |o.db.resets| ==> !ResetStore.OpenFor(o.db.resets[k], claims.email, claims.userType)
    ensures env.faults == {} && AccountExists(db, claims.email, claims.userType, {}) ==> o.reply.status == StatusOK
    ensures o.reply == Erro(StatusNotFound, UserNotFound) <==> !AccountExists(db, claims.email, claims.userType, env.faults)
    ensures o.reply == Erro(StatusInternalServerError, UpdateFailed) <==>
                  AccountExists(db, claims.email, claims.userType, env.faults) && UpdateCall(claims.userType) in env.faults
    ensures o.reply.status == StatusOK <==>
                  AccountExists(db, claims.email, claims.userType, env.faults) && UpdateCall(claims.userType) !in env.faults
  {
    match SetPassword(db, env, claims.email, claims.userType, hashed)
    case Failure(reply) => Outcome(reply, db)
    case Success(db1) =>
      var marked := IgnoreError(ResetStore.MarkAsUsed(db1.resets, resetId, env.now, env.faults), db1.resets);
      var closed := IgnoreError(ResetStore.InvalidateAllForUser(marked, claims.email, claims.userType, env.faults), marked);
      Outcome(Mensagem(StatusOK, PasswordChanged), db1.(resets := closed))
  }

  /** The body decodes, names a token and a new password, and the password
      passes the strength rules: everything `ResetPassword` checks before it
      looks at the token. */
  predicate WellFormedReset(req: Option<ResetPasswordRequest>) {
    && req.Some? && req.value.token != "" && req.value.newPassword != ""
    && Jwt.ValidatePasswordStrength(req.value.newPassword).None?
  }

  /** `ResetPassword`. A success needs a strong password, a valid reset token,
      an unused unexpired record carrying the token's hash, and the account;
      afterwards no open record of the user is left. */
  function ResetPassword(db: Db, env: Env, req: Option<ResetPasswordRequest>): (o: Outcome<()>)
    ensures o.reply.status in {StatusOK, StatusBadRequest, StatusUnauthorized, StatusNotFound, StatusInternalServerError}
    ensures o.reply.status != StatusOK ==> o.db == db && IsError(o.reply)
    ensures o.reply.status == StatusOK ==>
      && req.Some? && req.value.token != "" && Jwt.ValidatePasswordStrength(req.value.newPassword).None?
      && ResetTokens.ValidatePasswordResetToken(env.cfg, env.codec, req.value.token, env.now).Success?
      && var claims := ResetTokens.ValidatePasswordResetToken(env.cfg, env.codec, req.value.token, env.now).value;
      && (exists x :: x in db.resets && ResetStore.Redeemable(x, claims.tokenHash, env.now))
      && Jwt.HashPassword(env.hasher, req.value.newPassword, env.salt).Some?
      && PasswordSet(db.(resets := o.db.resets), o.db, claims.email, claims.userType,
                     Jwt.HashPassword(env.hasher, req.value.newPassword, env.salt).value, env.now)
      && (ResetInvalidateAll !in env.faults ==>
            forall k :: 0 <= k < |o.db.resets| ==> !ResetStore.OpenFor(o.db.resets[k], claims.email, claims.userType))
    ensures req.Some? && req.value.token != "" && req.value.newPassword != ""
            && Jwt.ValidatePasswordStrength(req.value.newPassword).None?
            && ResetTokens.ValidatePasswordResetToken(env.cfg, env.codec, req.value.token, env.now).Failure?
            ==> o.reply == Erro(StatusUnauthorized, InvalidToken)
  {
    if req.None? then Outcome(Erro(StatusBadRequest, InvalidData), db)
    else if req.value.token == "" || req.value.newPassword == "" then Outcome(Erro(StatusBadRequest, MissingResetFields), db)
    else match Jwt.ValidatePasswordStrength(req.value.newPassword)
      case Some(e) => Outcome(Erro(StatusBadRequest, e), db)
      case None =>
        match ResetTokens.ValidatePasswordResetToken(env.cfg, env.codec, req.value.token, env.now)
        case Failure(_) => Outcome(Erro(StatusUnauthorized, InvalidToken), db)
        case Success(claims) =>
          match ResetStore.GetByToken(db.resets, claims.tokenHash, env.now, env.faults)
          case Failure(e) =>
            Outcome(if e == NoDocuments then Erro(StatusUnauthorized, SpentToken) else Erro(StatusInternalServerError, VerifyFailed), db)
          case Success(reset) =>
            match Jwt.HashPassword(env.hasher, req.value.newPassword, env.salt)
            case None => Outcome(Erro(StatusInternalServerError, HashFailed), db)
            case Some(hashed) => Finish(db, env, claims, reset.id, hashed)
  }

  /** Every error reply of `ResetPassword` tied to its cause: a body that does
      not decode, lacks a field or carries a weak password is a 400, an
      invalid token or one without a redeemable record a 401, a failed
      lookup of the record a 500, a failed hash a 500, a missing account (or a
      failed account lookup) a 404, a failed save a 500, and a 200 otherwise. */
  lemma ResetPasswordFailures(db: Db, env: Env, req: Option<ResetPasswordRequest>)
    ensures ResetPassword(db, env, req).reply.status == StatusBadRequest <==> !WellFormedReset(req)
    ensures WellFormedReset(req) ==>
      (ResetPassword(db, env, req).reply == Erro(StatusUnauthorized, InvalidToken) <==>
             ResetTokens.ValidatePasswordResetToken(env.cfg, env.codec, req.value.token, env.now).Failure?)
    ensures WellFormedReset(req) && ResetTokens.ValidatePasswordResetToken(env.cfg, env.codec, req.value.token, env.now).Success? ==>
      var claims := ResetTokens.ValidatePasswordResetToken(env.cfg, env.codec, req.value.token, env.now).value;
      var found := ResetStore.GetByToken(db.resets, claims.tokenHash, env.now, env.faults);
      && (ResetPassword(db, env, req).reply == Erro(StatusUnauthorized, SpentToken) <==> found == Failure(NoDocuments))
      && (ResetPassword(db, env, req).reply == Erro(StatusInternalServerError, VerifyFailed) <==> found == Failure(Transient))
      && (found.Success? ==>
            var hashed := Jwt.HashPassword(env.hasher, req.value.newPassword, env.salt);
            && (ResetPassword(db, env, req).reply == Erro(StatusInternalServerError, HashFailed) <==> hashed.None?)
            && (hashed.Some? ==>
                  && (ResetPassword(db, env, req).reply == Erro(StatusNotFound, UserNotFound) <==>
                            !AccountExists(db, claims.email, claims.userType, env.faults))
                  && (ResetPassword(db, env, req).reply == Erro(StatusInternalServerError, UpdateFailed) <==>
                            AccountExists(db, claims.email, claims.userType, env.faults) && UpdateCall(claims.userType) in env.faults)
                  && (ResetPassword(db, env, req).reply.status == StatusOK <==>
                            AccountExists(db, claims.email, claims.userType, env.faults) && UpdateCall(claims.userType) !in env.faults)))
  {
    if WellFormedReset(req) {
      var v := ResetTokens.ValidatePasswordResetToken(env.cfg, env.codec, req.value.token, env.now);
      if v.Success? {
        match ResetStore.GetByToken(db.resets, v.value.tokenHash, env.now, env.faults)
        case Failure(_) =>
        case Success(reset) =>
          match Jwt.HashPassword(env.hasher, req.value.newPassword, env.salt)
          case None =>
          case Some(hashed) => ResetPasswordReachesFinish(db, env, req.value, v.value, reset, hashed);
      }
    }
  }

  /** Once every check has passed, `ResetPassword` is `Finish`. */
  lemma ResetPasswordReachesFinish(db: Db, env: Env, req: ResetPasswordRequest, claims: ResetTokens.ResetClaims,
                                   reset: ResetStore.PasswordReset, hashed: string)
    requires req.token != "" && req.newPassword != "" && Jwt.ValidatePasswordStrength(req.newPassword).None?
    requires ResetTokens.ValidatePasswordResetToken(env.cfg, env.codec, req.token, env.now) == Success(claims)
    requires ResetStore.GetByToken(db.resets, claims.tokenHash, env.now, env.faults) == Success(reset)
    requires Jwt.HashPassword(env.hasher, req.newPassword, env.salt) == Some(hashed)
    ensures ResetPassword(db, env, Some(req)) == Finish(db, env, claims, reset.id, hashed)
  {
  }

  // ----- finding: the as-written flow never completes -----

  /** As written, a token issued by `GeneratePasswordResetToken` carries a
      128-character hash while every stored hash has 64, so completing the
      reset always fails, whatever the store and the password. */
  lemma AsWrittenResetNeverCompletes(db: Db, env: Env, email: string, userType: string,
                                     random: Bytes32, issued: nat, pw: string)
    requires Jws.Faithful(env.codec)
    requires HashesOfLength(db.resets, StoredHashLength)
    requires ResetTokens.GeneratePasswordResetToken(env.cfg, env.codec, email, userType, Some(random), issued).Success?
    ensures
      var tok := ResetTokens.GeneratePasswordResetToken(env.cfg, env.codec, email, userType, Some(random), issued).value.jwt;
      ResetPassword(db, env, Some(ResetPasswordRequest(tok, pw))).reply.status != StatusOK
  {
    var i := ResetTokens.GeneratePasswordResetToken(env.cfg, env.codec, email, userType, Some(random), issued).value;
    var v := ResetTokens.ValidatePasswordResetToken(env.cfg, env.codec, i.jwt, env.now);
    if v.Success? {
      assert |v.value.tokenHash| == 2 * StoredHashLength;
      NoneRedeemableOfLength(db.resets, v.value.tokenHash, env.now);
    }
  }

  /** A hash of another length than the stored ones redeems nothing. */
  lemma NoneRedeemableOfLength(resets: seq<ResetStore.PasswordReset>, tokenHash: string, now: nat)
    requires HashesOfLength(resets, StoredHashLength) && |tokenHash| != StoredHashLength
    ensures !exists x :: x in resets && ResetStore.Redeemable(x, tokenHash, now)
  {
    forall x | x in resets
      ensures !ResetStore.Redeemable(x, tokenHash, now)
    {
      var k :| 0 <= k < |resets| && resets[k] == x;
    }
  }

  /** As written, a well-formed request for an existing account gets the token
      back in the reply and one for an unknown e-mail does not: the reply tells
      which e-mails are registered. */
  lemma AsWrittenRevealsExistence(db: Db, env: Env, req: RequestResetRequest, randomJwt: Bytes32, randomHash: Option<Bytes32>)
    requires CheckRequest(Some(req)).None?
    requires Jwt.Initialised(env.cfg)
    ensures RequestResetAsWritten(db, env, Some(req), Some(randomJwt), randomHash).reply.body.Data? <==>
            AccountExists(db, Jwt.SanitizeEmail(req.email), req.userType, env.faults)
  {
  }

  // ----- the intended flow -----

  /** The reply to a reset request does not depend on the collections at all,
      so it cannot tell registered e-mails from unknown ones. */
  lemma RequestReplyUniform(db1: Db, db2: Db, env: Env, req: Option<RequestResetRequest>, randomJwt: Option<Bytes32>)
    ensures RequestReset(db1, env, req, randomJwt).reply == RequestReset(db2, env, req, randomJwt).reply
  {
  }

  /** For a well-formed request for an existing account whose token is issued,
      `RequestReset` is the generic reply, the stored record, and the mailed token. */
  lemma RequestResetIssues(db: Db, env: Env, req: RequestResetRequest, randomJwt: Option<Bytes32>, i: ResetTokens.Issued)
    requires CheckRequest(Some(req)).None?
    requires AccountExists(db, Jwt.SanitizeEmail(req.email), req.userType, env.faults)
    requires ResetTokens.GeneratePasswordResetToken(env.cfg, env.codec, Jwt.SanitizeEmail(req.email), req.userType, randomJwt, env.now)
             == Success(i)
    ensures Hex.IsLowerHex(i.uniqueToken)
    ensures RequestReset(db, env, Some(req), randomJwt)
         == Requested(Mensagem(StatusOK, Generic), StoreIssued(db, env, Jwt.SanitizeEmail(req.email), req.userType, i), Some(i.jwt))
  {
  }

  /** A strong password, a valid token, a redeemable record under its hash and
      the account it names: with no repository failures the reset goes through. */
  lemma ResetWithRedeemable(db: Db, env: Env, req: ResetPasswordRequest, claims: ResetTokens.ResetClaims, k: nat)
    requires env.faults == {}
    requires req.token != "" && req.newPassword != "" && Jwt.ValidatePasswordStrength(req.newPassword).None?
    requires ResetTokens.ValidatePasswordResetToken(env.cfg, env.codec, req.token, env.now) == Success(claims)
    requires k < |db.resets| && ResetStore.Redeemable(db.resets[k], claims.tokenHash, env.now)
    requires Jwt.HashPassword(env.hasher, req.newPassword, env.salt).Some?
    requires AccountExists(db, claims.email, claims.userType, {})
    ensures ResetPassword(db, env, Some(req)).reply == Mensagem(StatusOK, PasswordChanged)
  {
    var g := ResetStore.GetByToken(db.resets, claims.tokenHash, env.now, {});
    assert g.Success?;
    var hashed := Jwt.HashPassword(env.hasher, req.newPassword, env.salt).value;
    ResetPasswordReachesFinish(db, env, req, claims, g.value, hashed);
  }

  /** Request, then completion within 15 minutes with the mailed token: the
      reset succeeds and the account's password becomes the hash of the new one. */
  lemma RequestThenReset(db: Db, env: Env, later: Env, email: string, userType: string, randomJwt: Bytes32, pw: string)
    requires Jws.Faithful(env.codec) && Jwt.Initialised(env.cfg)
    requires env.faults == {} && later.faults == {}
    requires later.cfg == env.cfg && later.codec == env.codec
    requires env.now <= later.now < env.now + ResetTokens.ResetLifetime
    requires email != "" && userType in {"company", "candidate"}
    requires AccountExists(db, Jwt.SanitizeEmail(email), userType, {})
    requires forall k :: 0 <= k < |db.resets| ==> db.resets[k].id != env.freshId
    requires pw != "" && Jwt.ValidatePasswordStrength(pw).None?
    requires Jwt.HashPassword(later.hasher, pw, later.salt).Some?
    requires 0 < |RequestReset(db, env, Some(RequestResetRequest(email, userType)), Some(randomJwt)).mailed.value| <= Jwt.MaxTokenLength
    ensures
      var asked := RequestReset(db, env, Some(RequestResetRequest(email, userType)), Some(randomJwt));
      var done := ResetPassword(asked.db, later, Some(ResetPasswordRequest(asked.mailed.value, pw)));
      && done.reply == Mensagem(StatusOK, PasswordChanged)
      && PasswordSet(asked.db.(resets := done.db.resets), done.db, Jwt.SanitizeEmail(email), userType,
                     Jwt.HashPassword(later.hasher, pw, later.salt).value, later.now)
  {
    var claims := RequestMailsRedeemable(db, env, later, email, userType, randomJwt);
    var asked := RequestReset(db, env, Some(RequestResetRequest(email, userType)), Some(randomJwt));
    MailedTokenResets(asked.db, later, asked.mailed.value, pw, claims, |db.resets|);
  }

  /** The record a request stores is the last one and stays redeemable under
      the token's hash for 15 minutes; the accounts are untouched. */
  lemma StoredRecordRedeemable(db: Db, env: Env, email: string, userType: string, i: ResetTokens.Issued, later: nat)
    requires Hex.IsLowerHex(i.uniqueToken)
    requires ResetCreate !in env.faults && forall k :: 0 <= k < |db.resets| ==> db.resets[k].id != env.freshId
    requires env.now <= later < env.now + ResetTokens.ResetLifetime
    requires AccountExists(db, email, userType, {})
    ensures
      var stored := StoreIssued(db, env, email, userType, i);
      && |db.resets| < |stored.resets|
      && ResetStore.Redeemable(stored.resets[|db.resets|], Hex.HashString(i.uniqueToken), later)
      && AccountExists(stored, email, userType, {})
  {
  }

  /** The first half of the flow: the request mails a token that stays valid
      for 15 minutes and whose record, stored after the existing ones, is
      redeemable until then; the account is still there. */
  lemma RequestMailsRedeemable(db: Db, env: Env, later: Env, email: string, userType: string, randomJwt: Bytes32)
    returns (claims: ResetTokens.ResetClaims)
    requires Jws.Faithful(env.codec) && Jwt.Initialised(env.cfg)
    requires env.faults == {}
    requires later.cfg == env.cfg && later.codec == env.codec
    requires env.now <= later.now < env.now + ResetTokens.ResetLifetime
    requires email != "" && userType in {"company", "candidate"}
    requires AccountExists(db, Jwt.SanitizeEmail(email), userType, {})
    requires forall k :: 0 <= k < |db.resets| ==> db.resets[k].id != env.freshId
    requires 0 < |RequestReset(db, env, Some(RequestResetRequest(email, userType)), Some(randomJwt)).mailed.value| <= Jwt.MaxTokenLength
    ensures
      var asked := RequestReset(db, env, Some(RequestResetRequest(email, userType)), Some(randomJwt));
      && asked.mailed.Some? && asked.mailed.value != ""
      && ResetTokens.ValidatePasswordResetToken(later.cfg, later.codec, asked.mailed.value, later.now) == Success(claims)
      && claims.email == Jwt.SanitizeEmail(email) && claims.userType == userType
      && |db.resets| < |asked.db.resets|
      && ResetStore.Redeemable(asked.db.resets[|db.resets|], claims.tokenHash, later.now)
      && AccountExists(asked.db, claims.email, claims.userType, {})
  {
    var e := Jwt.SanitizeEmail(email);
    var i := ResetTokens.GeneratePasswordResetToken(env.cfg, env.codec, e, userType, Some(randomJwt), env.now).value;
    var asked := RequestReset(db, env, Some(RequestResetRequest(email, userType)), Some(randomJwt));
    assert Hex.IsLowerHex(i.uniqueToken) && asked.mailed == Some(i.jwt)
        && asked.db == StoreIssued(db, env, e, userType, i) by {
      RequestResetIssues(db, env, RequestResetRequest(email, userType), Some(randomJwt), i);
    }
    claims := ResetTokens.ResetClaims(e, userType, Hex.HashString(i.uniqueToken), ResetTokens.ResetIssuer,
                                      Some(env.now), Some(env.now), Some(env.now + ResetTokens.ResetLifetime));
    ResetTokens.SanitizedTokenRoundTrip(env.cfg, env.codec, email, userType, randomJwt, env.now, later.now);
    assert ResetTokens.ValidatePasswordResetToken(env.cfg, env.codec, i.jwt, later.now) == Success(claims);
    assert ResetTokens.ValidatePasswordResetToken(later.cfg, later.codec, asked.mailed.value, later.now) == Success(claims);
    StoredRecordRedeemable(db, env, e, userType, i, later.now);
  }

  /** The second half of the flow: a valid token whose record is redeemable
      resets the password of the account it names. */
  lemma MailedTokenResets(db: Db, env: Env, jwt: string, pw: string, claims: ResetTokens.ResetClaims, k: nat)
    requires env.faults == {}
    requires jwt != "" && pw != "" && Jwt.ValidatePasswordStrength(pw).None?
    requires ResetTokens.ValidatePasswordResetToken(env.cfg, env.codec, jwt, env.now) == Success(claims)
    requires k < |db.resets| && ResetStore.Redeemable(db.resets[k], claims.tokenHash, env.now)
    requires Jwt.HashPassword(env.hasher, pw, env.salt).Some?
    requires AccountExists(db, claims.email, claims.userType, {})
    ensures
      var done := ResetPassword(db, env, Some(ResetPasswordRequest(jwt, pw)));
      && done.reply == Mensagem(StatusOK, PasswordChanged)
      && PasswordSet(db.(resets := done.db.resets), done.db, claims.email, claims.userType,
                     Jwt.HashPassword(env.hasher, pw, env.salt).value, env.now)
  {
    ResetWithRedeemable(db, env, ResetPasswordRequest(jwt, pw), claims, k);
  }

  /** Once a reset has gone through with its invalidation write, the same token
      is refused: a second success could only redeem a record of some other
      user that happens to carry the same hash. */
  lemma ReplayRefused(db: Db, env: Env, later: Env, req: ResetPasswordRequest)
    requires ResetInvalidateAll !in env.faults
    requires later.cfg == env.cfg && later.codec == env.codec
    requires ResetPassword(db, env, Some(req)).reply.status == StatusOK
    ensures
      var first := ResetPassword(db, env, Some(req));
      var again := ResetPassword(first.db, later, Some(req));
      var claims := ResetTokens.ValidatePasswordResetToken(env.cfg, env.codec, req.token, env.now).value;
      again.reply.status == StatusOK ==>
        exists x :: x in first.db.resets && ResetStore.Redeemable(x, claims.tokenHash, later.now)
                    && (x.email != claims.email || x.userType != claims.userType)
  {
    var first := ResetPassword(db, env, Some(req));
    var claims := ResetTokens.ValidatePasswordResetToken(env.cfg, env.codec, req.token, env.now).value;
    var again := ResetPassword(first.db, later, Some(req));
    if again.reply.status == StatusOK {
      var claims2 := ResetTokens.ValidatePasswordResetToken(later.cfg, later.codec, req.token, later.now).value;
      assert claims2.tokenHash == claims.tokenHash && claims2.email == claims.email && claims2.userType == claims.userType;
      var x :| x in first.db.resets && ResetStore.Redeemable(x, claims.tokenHash, later.now);
      var k :| 0 <= k < |first.db.resets| && first.db.resets[k] == x;
      assert !ResetStore.OpenFor(x, claims.email, claims.userType);
    }
  }
}
