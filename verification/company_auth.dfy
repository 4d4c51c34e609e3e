/** internal/http/handlers/company_auth.go: company sign-up and sign-in. */
module CompanyAuth {
  import opened Wrappers
  import opened Store
  import opened Http
  import opened Db
  import Jws
  import Jwt
  import Companies
  import Candidates

  const InvalidData: string := "Dados inválidos"
  const MissingFields: string := "Campos obrigatórios: name, email, password, cnpj"
  const BadCnpjLength: string := "CNPJ deve conter exatamente 14 dígitos"
  const EmailTaken: string := "Email já cadastrado"
  const EmailTakenByCandidate: string := "Email já cadastrado como candidato. Use outro email."
  const CnpjTaken: string := "CNPJ já cadastrado"
  const HashFailed: string := "Erro ao processar senha"
  const CreateFailed: string := "Erro ao criar empresa"
  const TokenFailed: string := "Erro ao gerar token"
  const Created: string := "Empresa criada com sucesso"
  const BadCredentials: string := "Email ou senha incorretos"
  const LookupFailed: string := "Erro ao buscar empresa"

  /** The `type` claim of a company session. */
  const CompanyKind: string := "company"
  /** A CNPJ is accepted when it is exactly this many bytes long; its characters are not looked at. */
  const CnpjLength: nat := 14

  datatype RegisterRequest = RegisterRequest(
    name: string,
    legalName: string,
    cnpj: string,
    email: string,
    password: string,
    phone: string,
    location: string)

  /** The sign-in body, shared with the candidate handler. */
  datatype LoginRequest = LoginRequest(email: string, password: string)

  /** `{"mensagem", "token", "empresa"}`; the password digest is never serialised. */
  datatype Registered = Registered(mensagem: string, token: string, empresa: Companies.Company)

  /** `{"token", "empresa"}`. */
  datatype LoggedIn = LoggedIn(token: string, empresa: Companies.Company)

  predicate Complete(q: RegisterRequest) {
    q.name != "" && q.email != "" && q.password != "" && q.cnpj != ""
  }

  /** The checks made before the store is consulted: a body that does not decode,
      a missing field, a weak password, a CNPJ of the wrong length, in that order. */
  function CheckRegister(req: Option<RegisterRequest>): (r: Option<Reply<Registered>>)
    ensures r.None? <==>
      req.Some? && Complete(req.value)
      && Jwt.ValidatePasswordStrength(req.value.password).None? && |req.value.cnpj| == CnpjLength
    ensures r.Some? ==> r.value.status == StatusBadRequest && IsError(r.value)
    ensures req.None? ==> r == Some(Erro(StatusBadRequest, InvalidData))
    ensures req.Some? && !Complete(req.value) ==> r == Some(Erro(StatusBadRequest, MissingFields))
  {
    match req
    case None => Some(Erro(StatusBadRequest, InvalidData))
    case Some(q) =>
      if !Complete(q) then Some(Erro(StatusBadRequest, MissingFields))
      else match Jwt.ValidatePasswordStrength(q.password)
        case Some(e) => Some(Erro(StatusBadRequest, e))
        case None =>
          if |q.cnpj| != CnpjLength then Some(Erro(StatusBadRequest, BadCnpjLength))
          else None
  }

  /** The document handed to `Create`: the request's fields, the normalised e-mail
      and the digest; every other field is left empty. */
  function NewCompany(q: RegisterRequest, email: string, digest: string): Companies.Company {
    Companies.Company("", q.name, q.legalName, q.cnpj, email, digest, q.phone, "", "", "", "", q.location, "", "", 0, 0)
  }

  /** `db'` is `db` with one company appended, built from the request as the
      handler builds it, and nothing else changed. */
  predicate AddsCompany(db: Db, db': Db, env: Env, q: RegisterRequest) {
    && |db'.companies| == |db.companies| + 1
    && db' == db.(companies := db.companies + [db'.companies[|db.companies|]])
    && var c := db'.companies[|db.companies|];
    && c.id == env.freshId
    && c.name == q.name && c.legalName == q.legalName && c.cnpj == q.cnpj
    && c.email == Jwt.SanitizeEmail(q.email) && c.phone == q.phone && c.location == q.location
    && c.website == "" && c.logo == "" && c.about == "" && c.employeeCount == "" && c.sector == ""
    && c.verificationStatus == Companies.PendingVerification
    && c.createdAt == env.now && c.updatedAt == env.now
    && Jwt.HashPassword(env.hasher, q.password, env.salt) == Some(c.password)
  }

  /** The three uniqueness lookups, in the handler's order. Each only refuses
      on a hit: a lookup that fails with a driver error lets the request through. */
  function Conflict(db: Db, env: Env, q: RegisterRequest): (r: Option<Reply<Registered>>)
    ensures r.None? ==>
      var email := Jwt.SanitizeEmail(q.email);
      && (CompanyByEmail !in env.faults ==> forall k :: 0 <= k < |db.companies| ==> db.companies[k].email != email)
      && (CandidateByEmail !in env.faults ==> forall k :: 0 <= k < |db.candidates| ==> db.candidates[k].email != email)
      && (CompanyByCnpj !in env.faults ==> forall k :: 0 <= k < |db.companies| ==> db.companies[k].cnpj != q.cnpj)
    ensures r.Some? ==>
      var email := Jwt.SanitizeEmail(q.email);
      || (r.value == Erro(StatusConflict, EmailTaken) && exists c :: c in db.companies && c.email == email)
      || (r.value == Erro(StatusConflict, EmailTakenByCandidate) && exists c :: c in db.candidates && c.email == email)
      || (r.value == Erro(StatusConflict, CnpjTaken) && exists c :: c in db.companies && c.cnpj == q.cnpj)
  {
    var email := Jwt.SanitizeEmail(q.email);
    if Companies.GetByEmail(db.companies, email, env.faults).Success? then Some(Erro(StatusConflict, EmailTaken))
    else if Candidates.GetByEmail(db.candidates, email, env.faults).Success? then Some(Erro(StatusConflict, EmailTakenByCandidate))
    else if Companies.GetByCnpj(db.companies, q.cnpj, env.faults).Success? then Some(Erro(StatusConflict, CnpjTaken))
    else None
  }

  /** Hashing, insertion and token issue, once the request has been admitted.
      The token failure comes after the insert: the company stays stored. */
  function Enrol(db: Db, env: Env, q: RegisterRequest): (o: Outcome<Registered>)
    ensures o.reply.status in {StatusCreated, StatusInternalServerError}
    ensures o.db == db || AddsCompany(db, o.db, env, q)
    ensures o.db != db ==> o.reply.status == StatusCreated || o.reply == Erro(StatusInternalServerError, TokenFailed)
    ensures o.reply.status == StatusCreated ==>
      && |o.db.companies| == |db.companies| + 1
      && o.reply.body.Data?
      && o.reply.body.value.mensagem == Created
      && o.reply.body.value.empresa == o.db.companies[|db.companies|]
  {
    match Jwt.HashPassword(env.hasher, q.password, env.salt)
    case None => Outcome(Erro(StatusInternalServerError, HashFailed), db)
    case Some(digest) =>
      match Companies.Create(db.companies, NewCompany(q, Jwt.SanitizeEmail(q.email), digest), env.freshId, env.now, env.faults)
      case Failure(_) => Outcome(Erro(StatusInternalServerError, CreateFailed), db)
      case Success((companies, stored)) =>
        var db' := db.(companies := companies);
        match Jwt.GenerateToken(env.cfg, env.codec, stored.id, CompanyKind, env.now)
        case Failure(_) => Outcome(Erro(StatusInternalServerError, TokenFailed), db')
        case Success(token) => Outcome(Ok(StatusCreated, Registered(Created, token, stored)), db')
  }

  /** Enrolment goes through when bcrypt, the insert and the secret cooperate. */
  lemma EnrolSucceeds(db: Db, env: Env, q: RegisterRequest)
    requires CompanyCreate !in env.faults && Jwt.Initialised(env.cfg)
    requires forall k :: 0 <= k < |db.companies| ==> db.companies[k].id != env.freshId
    requires Jwt.HashPassword(env.hasher, q.password, env.salt).Some?
    ensures Enrol(db, env, q).reply.status == StatusCreated
  {
  }

  /** `Register`: validation, the uniqueness lookups, then enrolment. */
  function Register(db: Db, env: Env, req: Option<RegisterRequest>): (o: Outcome<Registered>)
    ensures o.reply.status in {StatusCreated, StatusBadRequest, StatusConflict, StatusInternalServerError}
    ensures o.reply.status == StatusBadRequest <==> CheckRegister(req).Some?
    ensures o.db == db || (req.Some? && AddsCompany(db, o.db, env, req.value))
    ensures o.db != db ==> o.reply.status == StatusCreated || o.reply == Erro(StatusInternalServerError, TokenFailed)
    ensures o.reply.status == StatusCreated ==>
      && |o.db.companies| == |db.companies| + 1
      && o.reply.body.Data?
      && o.reply.body.value.mensagem == Created
      && o.reply.body.value.empresa == o.db.companies[|db.companies|]
      && Conflict(db, env, req.value).None?
    ensures o.reply.status == StatusConflict ==> Conflict(db, env, req.value) == Some(o.reply)
  {
    match CheckRegister(req)
    case Some(rejection) => Outcome(rejection, db)
    case None =>
      match Conflict(db, env, req.value)
      case Some(refusal) => Outcome(refusal, db)
      case None => Enrol(db, env, req.value)
  }

  /** A well-formed request for an unused e-mail and CNPJ is registered whenever
      the store, bcrypt and the secret all cooperate. */
  lemma RegisterSucceedsWhenFree(db: Db, env: Env, q: RegisterRequest)
    requires CheckRegister(Some(q)).None?
    requires env.faults == {} && Jwt.Initialised(env.cfg)
    requires forall k :: 0 <= k < |db.companies| ==> db.companies[k].email != Jwt.SanitizeEmail(q.email)
    requires forall k :: 0 <= k < |db.candidates| ==> db.candidates[k].email != Jwt.SanitizeEmail(q.email)
    requires forall k :: 0 <= k < |db.companies| ==> db.companies[k].cnpj != q.cnpj && db.companies[k].id != env.freshId
    requires Jwt.HashPassword(env.hasher, q.password, env.salt).Some?
    ensures Register(db, env, Some(q)).reply.status == StatusCreated
  {
  }

  /** With the lookups answering, registration keeps e-mails unique across both
      account kinds and CNPJs unique among companies. */
  lemma RegisterKeepsAccountsConsistent(db: Db, env: Env, req: Option<RegisterRequest>)
    requires AccountsConsistent(db)
    requires CompanyByEmail !in env.faults && CandidateByEmail !in env.faults && CompanyByCnpj !in env.faults
    ensures AccountsConsistent(Register(db, env, req).db)
  {
    var o := Register(db, env, req);
    if o.db != db {
      var q := req.value;
      assert AddsCompany(db, o.db, env, q);
      assert Conflict(db, env, q).None? by {
        assert CheckRegister(req).None?;
      }
      var c := o.db.companies[|db.companies|];
      AddCompanyKeepsConsistent(db, c);
    }
  }

  /** A driver error on the e-mail lookup is read as "not found": a second
      company can be registered under an e-mail that is already taken. */
  lemma TransientLookupAdmitsDuplicate(db: Db, env: Env, q: RegisterRequest, taken: nat)
    requires CheckRegister(Some(q)).None?
    requires env.faults == {CompanyByEmail} && Jwt.Initialised(env.cfg)
    requires taken < |db.companies| && db.companies[taken].email == Jwt.SanitizeEmail(q.email)
    requires forall k :: 0 <= k < |db.companies| ==> db.companies[k].cnpj != q.cnpj && db.companies[k].id != env.freshId
    requires forall k :: 0 <= k < |db.candidates| ==> db.candidates[k].email != Jwt.SanitizeEmail(q.email)
    requires Jwt.HashPassword(env.hasher, q.password, env.salt).Some?
    ensures Register(db, env, Some(q)).reply.status == StatusCreated
    ensures !AccountsConsistent(Register(db, env, Some(q)).db)
  {
    assert Conflict(db, env, q).None? by {
      var email := Jwt.SanitizeEmail(q.email);
      assert Companies.GetByEmail(db.companies, email, env.faults).Failure?;
      assert Candidates.GetByEmail(db.candidates, email, env.faults).Failure?;
      assert Companies.GetByCnpj(db.companies, q.cnpj, env.faults).Failure?;
    }
    assert Register(db, env, Some(q)) == Enrol(db, env, q);
    EnrolSucceeds(db, env, q);
    var o := Enrol(db, env, q);
    assert AddsCompany(db, o.db, env, q);
    assert o.db.companies[taken] == db.companies[taken];
    assert o.db.companies[taken].email == o.db.companies[|db.companies|].email;
  }

  /** The token of a successful registration is a company session for the new
      id, valid for the next 24 hours. */
  lemma RegisterIssuesSession(db: Db, env: Env, req: Option<RegisterRequest>, later: nat)
    requires Jws.Faithful(env.codec)
    requires Register(db, env, req).reply.status == StatusCreated
    requires |Register(db, env, req).reply.body.value.token| <= Jwt.MaxTokenLength
    requires env.now <= later < env.now + Jwt.SessionLifetime
    ensures Jwt.ValidateToken(env.cfg, env.codec, Register(db, env, req).reply.body.value.token, later)
      == Success(Jwt.SessionClaims(env.freshId, CompanyKind, Jwt.SessionIssuer, Some(env.now), Some(env.now), Some(env.now + Jwt.SessionLifetime)))
  {
    Jwt.SessionTokenRoundTrip(env.cfg, env.codec, env.freshId, CompanyKind, env.now, later);
  }

  /** `Login`. An unknown e-mail and a wrong password get the same reply. */
  function Login(db: Db, env: Env, req: Option<LoginRequest>): (r: Reply<LoggedIn>)
    ensures r.status in {StatusOK, StatusBadRequest, StatusUnauthorized, StatusInternalServerError}
    ensures r.status == StatusBadRequest <==> req.None?
    ensures r.status == StatusUnauthorized ==> r == Erro(StatusUnauthorized, BadCredentials)
    ensures r.status == StatusInternalServerError ==> CompanyByEmail in env.faults || !Jwt.Initialised(env.cfg)
    ensures r.status == StatusOK ==>
      && r.body.Data?
      && var c := r.body.value.empresa;
      && c in db.companies
      && c.email == Jwt.SanitizeEmail(req.value.email)
      && env.hasher.compare(c.password, req.value.password)
  {
    match req
    case None => Erro(StatusBadRequest, InvalidData)
    case Some(q) =>
      match Companies.GetByEmail(db.companies, Jwt.SanitizeEmail(q.email), env.faults)
      case Failure(e) =>
        if e == NoDocuments then Erro(StatusUnauthorized, BadCredentials)
        else Erro(StatusInternalServerError, LookupFailed)
      case Success(c) =>
        if !Jwt.CheckPasswordHash(env.hasher, q.password, c.password) then Erro(StatusUnauthorized, BadCredentials)
        else match Jwt.GenerateToken(env.cfg, env.codec, c.id, CompanyKind, env.now)
          case Failure(_) => Erro(StatusInternalServerError, TokenFailed)
          case Success(token) => Ok(StatusOK, LoggedIn(token, c))
  }

  /** The token of a successful sign-in is a company session for the account
      found, valid for the next 24 hours. */
  lemma LoginIssuesSession(db: Db, env: Env, req: Option<LoginRequest>, later: nat)
    requires Jws.Faithful(env.codec)
    requires Login(db, env, req).status == StatusOK
    requires |Login(db, env, req).body.value.token| <= Jwt.MaxTokenLength
    requires env.now <= later < env.now + Jwt.SessionLifetime
    ensures Jwt.ValidateToken(env.cfg, env.codec, Login(db, env, req).body.value.token, later)
      == Success(Jwt.SessionClaims(Login(db, env, req).body.value.empresa.id, CompanyKind, Jwt.SessionIssuer,
                                   Some(env.now), Some(env.now), Some(env.now + Jwt.SessionLifetime)))
  {
    var c := Login(db, env, req).body.value.empresa;
    Jwt.SessionTokenRoundTrip(env.cfg, env.codec, c.id, CompanyKind, env.now, later);
  }

  /** Some company holds this e-mail and a digest of this password. */
  predicate Holds(db: Db, h: Jwt.Hasher, email: string, pw: string) {
    exists c :: c in db.companies && c.email == email && h.compare(c.password, pw)
  }

  /** With e-mails unique and the lookup answering, sign-in succeeds exactly
      when some company holds the normalised e-mail and the password. */
  lemma LoginAcceptsExactlyHolders(db: Db, env: Env, q: LoginRequest)
    requires AccountsConsistent(db)
    requires CompanyByEmail !in env.faults && Jwt.Initialised(env.cfg)
    ensures Login(db, env, Some(q)).status == StatusOK <==> Holds(db, env.hasher, Jwt.SanitizeEmail(q.email), q.password)
    ensures Login(db, env, Some(q)).status != StatusOK ==> Login(db, env, Some(q)) == Erro(StatusUnauthorized, BadCredentials)
  {
    var email := Jwt.SanitizeEmail(q.email);
    var f := Companies.GetByEmail(db.companies, email, env.faults);
    if Holds(db, env.hasher, email, q.password) {
      var c :| c in db.companies && c.email == email && env.hasher.compare(c.password, q.password);
      var i :| 0 <= i < |db.companies| && db.companies[i] == c;
      assert f.Success?;
      var j :| 0 <= j < |db.companies| && db.companies[j] == f.value;
      assert i == j;
    }
  }

  /** Under unique e-mails the only possible holder is the account with that e-mail. */
  lemma HoldsOnlyOwner(db: Db, h: Jwt.Hasher, k: nat, pw: string)
    requires AccountsConsistent(db) && k < |db.companies|
    ensures Holds(db, h, db.companies[k].email, pw) <==> h.compare(db.companies[k].password, pw)
  {
    if Holds(db, h, db.companies[k].email, pw) {
      var d :| d in db.companies && d.email == db.companies[k].email && h.compare(d.password, pw);
      var i :| 0 <= i < |db.companies| && db.companies[i] == d;
      assert i == k;
    }
  }

  /** Under unique e-mails a successful sign-in returns the account with that e-mail. */
  lemma LoginFindsOwner(db: Db, env: Env, q: LoginRequest, k: nat)
    requires AccountsConsistent(db) && k < |db.companies|
    requires db.companies[k].email == Jwt.SanitizeEmail(q.email)
    requires Login(db, env, Some(q)).status == StatusOK
    ensures Login(db, env, Some(q)).body.value.empresa == db.companies[k]
  {
    var e := Login(db, env, Some(q)).body.value.empresa;
    var i :| 0 <= i < |db.companies| && db.companies[i] == e;
    assert i == k;
  }

  /** Sign-in against collections that gained a company through registration. */
  lemma EnrolledThenLogin(db: Db, db': Db, env: Env, q: RegisterRequest, later: Env, login: LoginRequest)
    requires AccountsConsistent(db') && AddsCompany(db, db', env, q) && Jwt.Sound(env.hasher)
    requires later.faults == {} && later.hasher == env.hasher && Jwt.Initialised(later.cfg)
    requires Jwt.SanitizeEmail(login.email) == Jwt.SanitizeEmail(q.email)
    ensures Login(db', later, Some(login)).status == StatusOK <==> login.password == q.password
    ensures login.password == q.password ==> Login(db', later, Some(login)).body.value.empresa == db'.companies[|db.companies|]
  {
    var n := |db.companies|;
    HoldsOnlyOwner(db', env.hasher, n, login.password);
    Jwt.HashThenCheck(env.hasher, q.password, env.salt, login.password);
    LoginAcceptsExactlyHolders(db', later, login);
    if login.password == q.password {
      LoginFindsOwner(db', later, login, n);
    }
  }

  /** A company registered with password `pw` signs in with its e-mail in any
      letter case or surrounded by blanks, with `pw` and with no other password. */
  lemma RegisterThenLogin(db: Db, env: Env, q: RegisterRequest, later: Env, login: LoginRequest)
    requires AccountsConsistent(db) && Jwt.Sound(env.hasher)
    requires CompanyByEmail !in env.faults && CandidateByEmail !in env.faults && CompanyByCnpj !in env.faults
    requires Register(db, env, Some(q)).reply.status == StatusCreated
    requires later.faults == {} && later.hasher == env.hasher && Jwt.Initialised(later.cfg)
    requires Jwt.SanitizeEmail(login.email) == Jwt.SanitizeEmail(q.email)
    ensures Login(Register(db, env, Some(q)).db, later, Some(login)).status == StatusOK <==> login.password == q.password
    ensures login.password == q.password ==>
      Login(Register(db, env, Some(q)).db, later, Some(login)).body.value.empresa == Register(db, env, Some(q)).reply.body.value.empresa
  {
    var o := Register(db, env, Some(q));
    assert o.db != db by { assert |o.db.companies| != |db.companies|; }
    RegisterKeepsAccountsConsistent(db, env, Some(q));
    EnrolledThenLogin(db, o.db, env, q, later, login);
  }
}
