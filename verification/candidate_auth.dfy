/** internal/http/handlers/candidate_auth.go: candidate sign-up and sign-in.
    The request body of sign-in and the messages both handlers share come from
    the company handler's module. */
module CandidateAuth {
  import opened Wrappers
  import opened Store
  import opened Http
  import opened Db
  import Jws
  import Jwt
  import Companies
  import Candidates
  import CompanyAuth

  const MissingFields: string := "Campos obrigatórios: name, email, password"
  const EmailTaken: string := "Email já cadastrado"
  const EmailTakenByCompany: string := "Email já cadastrado como empresa. Use outro email."
  const CreateFailed: string := "Erro ao criar candidato"
  const Created: string := "Candidato criado com sucesso"
  const LookupFailed: string := "Erro ao buscar candidato"

  /** The `type` claim of a candidate session. */
  const CandidateKind: string := "candidate"

  datatype RegisterRequest = RegisterRequest(name: string, email: string, password: string, phone: string, location: string)

  /** `{"mensagem", "token", "candidato"}`; the password digest is never serialised. */
  datatype Registered = Registered(mensagem: string, token: string, candidato: Candidates.Candidate)

  /** `{"token", "candidato"}`. */
  datatype LoggedIn = LoggedIn(token: string, candidato: Candidates.Candidate)

  predicate Complete(q: RegisterRequest) {
    q.name != "" && q.email != "" && q.password != ""
  }

  /** The checks made before the store is consulted: a body that does not decode,
      a missing field, a weak password, in that order. */
  function CheckRegister(req: Option<RegisterRequest>): (r: Option<Reply<Registered>>)
    ensures r.None? <==> req.Some? && Complete(req.value) && Jwt.ValidatePasswordStrength(req.value.password).None?
    ensures r.Some? ==> r.value.status == StatusBadRequest && IsError(r.value)
    ensures req.None? ==> r == Some(Erro(StatusBadRequest, CompanyAuth.InvalidData))
    ensures req.Some? && !Complete(req.value) ==> r == Some(Erro(StatusBadRequest, MissingFields))
  {
    match req
    case None => Some(Erro(StatusBadRequest, CompanyAuth.InvalidData))
    case Some(q) =>
      if !Complete(q) then Some(Erro(StatusBadRequest, MissingFields))
      else match Jwt.ValidatePasswordStrength(q.password)
        case Some(e) => Some(Erro(StatusBadRequest, e))
        case None => None
  }

  /** The document handed to `Create`: the request's fields, the normalised e-mail
      and the digest; every other field is left empty. */
  function NewCandidate(q: RegisterRequest, email: string, digest: string): Candidates.Candidate {
    Candidates.Candidate("", q.name, email, digest, q.phone, "", [], [], q.location, "", "", "", 0, 0)
  }

  /** `db'` is `db` with one candidate appended, built from the request as the
      handler builds it, and nothing else changed. */
  predicate AddsCandidate(db: Db, db': Db, env: Env, q: RegisterRequest) {
    && |db'.candidates| == |db.candidates| + 1
    && db' == db.(candidates := db.candidates + [db'.candidates[|db.candidates|]])
    && var c := db'.candidates[|db.candidates|];
    && c.id == env.freshId
    && c.name == q.name && c.email == Jwt.SanitizeEmail(q.email) && c.phone == q.phone && c.location == q.location
    && c.resume == "" && c.skills == [] && c.experiences == []
    && c.linkedIn == "" && c.gitHub == "" && c.portfolio == ""
    && c.createdAt == env.now && c.updatedAt == env.now
    && Jwt.HashPassword(env.hasher, q.password, env.salt) == Some(c.password)
  }

  /** The two e-mail lookups, own collection first. Each only refuses on a hit:
      a lookup that fails with a driver error lets the request through. */
  function Conflict(db: Db, env: Env, q: RegisterRequest): (r: Option<Reply<Registered>>)
    ensures r.None? ==>
      var email := Jwt.SanitizeEmail(q.email);
      && (CandidateByEmail !in env.faults ==> forall k :: 0 <= k < |db.candidates| ==> db.candidates[k].email != email)
      && (CompanyByEmail !in env.faults ==> forall k :: 0 <= k < |db.companies| ==> db.companies[k].email != email)
    ensures r.Some? ==>
      var email := Jwt.SanitizeEmail(q.email);
      || (r.value == Erro(StatusConflict, EmailTaken) && exists c :: c in db.candidates && c.email == email)
      || (r.value == Erro(StatusConflict, EmailTakenByCompany) && exists c :: c in db.companies && c.email == email)
  {
    var email := Jwt.SanitizeEmail(q.email);
    if Candidates.GetByEmail(db.candidates, email, env.faults).Success? then Some(Erro(StatusConflict, EmailTaken))
    else if Companies.GetByEmail(db.companies, email, env.faults).Success? then Some(Erro(StatusConflict, EmailTakenByCompany))
    else None
  }

  /** Hashing, insertion and token issue, once the request has been admitted.
      The token failure comes after the insert: the candidate stays stored. */
  function Enrol(db: Db, env: Env, q: RegisterRequest): (o: Outcome<Registered>)
    ensures o.reply.status in {StatusCreated, StatusInternalServerError}
    ensures o.db == db || AddsCandidate(db, o.db, env, q)
    ensures o.db != db ==> o.reply.status == StatusCreated || o.reply == Erro(StatusInternalServerError, CompanyAuth.TokenFailed)
    ensures o.reply.status == StatusCreated ==>
      && |o.db.candidates| == |db.candidates| + 1
      && o.reply.body.Data?
      && o.reply.body.value.mensagem == Created
      && o.reply.body.value.candidato == o.db.candidates[|db.candidates|]
  {
    match Jwt.HashPassword(env.hasher, q.password, env.salt)
    case None => Outcome(Erro(StatusInternalServerError, CompanyAuth.HashFailed), db)
    case Some(digest) =>
      match Candidates.Create(db.candidates, NewCandidate(q, Jwt.SanitizeEmail(q.email), digest), env.freshId, env.now, env.faults)
      case Failure(_) => Outcome(Erro(StatusInternalServerError, CreateFailed), db)
      case Success((candidates, stored)) =>
        var db' := db.(candidates := candidates);
        match Jwt.GenerateToken(env.cfg, env.codec, stored.id, CandidateKind, env.now)
        case Failure(_) => Outcome(Erro(StatusInternalServerError, CompanyAuth.TokenFailed), db')
        case Success(token) => Outcome(Ok(StatusCreated, Registered(Created, token, stored)), db')
  }

  /** Enrolment goes through when bcrypt, the insert and the secret cooperate. */
  lemma EnrolSucceeds(db: Db, env: Env, q: RegisterRequest)
    requires CandidateCreate !in env.faults && Jwt.Initialised(env.cfg)
    requires forall k :: 0 <= k < |db.candidates| ==> db.candidates[k].id != env.freshId
    requires Jwt.HashPassword(env.hasher, q.password, env.salt).Some?
    ensures Enrol(db, env, q).reply.status == StatusCreated
  {
  }

  /** `Register`: validation, the e-mail lookups, then enrolment. */
  function Register(db: Db, env: Env, req: Option<RegisterRequest>): (o: Outcome<Registered>)
    ensures o.reply.status in {StatusCreated, StatusBadRequest, StatusConflict, StatusInternalServerError}
    ensures o.reply.status == StatusBadRequest <==> CheckRegister(req).Some?
    ensures o.db == db || (req.Some? && AddsCandidate(db, o.db, env, req.value))
    ensures o.db != db ==> o.reply.status == StatusCreated || o.reply == Erro(StatusInternalServerError, CompanyAuth.TokenFailed)
    ensures o.reply.status == StatusCreated ==>
      && |o.db.candidates| == |db.candidates| + 1
      && o.reply.body.Data?
      && o.reply.body.value.mensagem == Created
      && o.reply.body.value.candidato == o.db.candidates[|db.candidates|]
      && Conflict(db, env, req.value).None?
    ensures o.reply.status == StatusConflict ==> Conflict(db, env, req.value) == Some(o.reply)
  {
    match CheckRegister(req)
    case Some(rejection) => Outcome(rejection, db)
    case None =>
      match Conflict(db, env, req.value)
      case Some(refusal) => Outcome(refusal, db)
      case None => Enrol(db, env, req.value)
  }

  /** A well-formed request for an unused e-mail is registered whenever the
      store, bcrypt and the secret all cooperate. */
  lemma RegisterSucceedsWhenFree(db: Db, env: Env, q: RegisterRequest)
    requires CheckRegister(Some(q)).None?
    requires env.faults == {} && Jwt.Initialised(env.cfg)
    requires forall k :: 0 <= k < |db.candidates| ==> db.candidates[k].email != Jwt.SanitizeEmail(q.email) && db.candidates[k].id != env.freshId
    requires forall k :: 0 <= k < |db.companies| ==> db.companies[k].email != Jwt.SanitizeEmail(q.email)
    requires Jwt.HashPassword(env.hasher, q.password, env.salt).Some?
    ensures Register(db, env, Some(q)).reply.status == StatusCreated
  {
    assert Conflict(db, env, q).None? by {
      var email := Jwt.SanitizeEmail(q.email);
      assert Candidates.GetByEmail(db.candidates, email, env.faults).Failure?;
      assert Companies.GetByEmail(db.companies, email, env.faults).Failure?;
    }
    EnrolSucceeds(db, env, q);
  }

  /** With both lookups answering, registration keeps e-mails unique across
      both account kinds. */
  lemma RegisterKeepsAccountsConsistent(db: Db, env: Env, req: Option<RegisterRequest>)
    requires AccountsConsistent(db)
    requires CandidateByEmail !in env.faults && CompanyByEmail !in env.faults
    ensures AccountsConsistent(Register(db, env, req).db)
  {
    var o := Register(db, env, req);
    if o.db != db {
      var c := o.db.candidates[|db.candidates|];
      assert Conflict(db, env, req.value).None?;
      AddCandidateKeepsConsistent(db, c);
    }
  }

  /** The token of a successful registration is a candidate session for the new
      id, valid for the next 24 hours. */
  lemma RegisterIssuesSession(db: Db, env: Env, req: Option<RegisterRequest>, later: nat)
    requires Jws.Faithful(env.codec)
    requires Register(db, env, req).reply.status == StatusCreated
    requires |Register(db, env, req).reply.body.value.token| <= Jwt.MaxTokenLength
    requires env.now <= later < env.now + Jwt.SessionLifetime
    ensures Jwt.ValidateToken(env.cfg, env.codec, Register(db, env, req).reply.body.value.token, later)
      == Success(Jwt.SessionClaims(env.freshId, CandidateKind, Jwt.SessionIssuer, Some(env.now), Some(env.now), Some(env.now + Jwt.SessionLifetime)))
  {
    Jwt.SessionTokenRoundTrip(env.cfg, env.codec, env.freshId, CandidateKind, env.now, later);
  }

  /** `Login`. An unknown e-mail and a wrong password get the same reply. */
  function Login(db: Db, env: Env, req: Option<CompanyAuth.LoginRequest>): (r: Reply<LoggedIn>)
    ensures r.status in {StatusOK, StatusBadRequest, StatusUnauthorized, StatusInternalServerError}
    ensures r.status == StatusBadRequest <==> req.None?
    ensures r.status == StatusUnauthorized ==> r == Erro(StatusUnauthorized, CompanyAuth.BadCredentials)
    ensures r.status == StatusInternalServerError ==> CandidateByEmail in env.faults || !Jwt.Initialised(env.cfg)
    ensures r.status == StatusOK ==>
      && r.body.Data?
      && var c := r.body.value.candidato;
      && c in db.candidates
      && c.email == Jwt.SanitizeEmail(req.value.email)
      && env.hasher.compare(c.password, req.value.password)
  {
    match req
    case None => Erro(StatusBadRequest, CompanyAuth.InvalidData)
    case Some(q) =>
      match Candidates.GetByEmail(db.candidates, Jwt.SanitizeEmail(q.email), env.faults)
      case Failure(e) =>
        if e == NoDocuments then Erro(StatusUnauthorized, CompanyAuth.BadCredentials)
        else Erro(StatusInternalServerError, LookupFailed)
      case Success(c) =>
        if !Jwt.CheckPasswordHash(env.hasher, q.password, c.password) then Erro(StatusUnauthorized, CompanyAuth.BadCredentials)
        else match Jwt.GenerateToken(env.cfg, env.codec, c.id, CandidateKind, env.now)
          case Failure(_) => Erro(StatusInternalServerError, CompanyAuth.TokenFailed)
          case Success(token) => Ok(StatusOK, LoggedIn(token, c))
  }

  /** The token of a successful sign-in is a candidate session for the account
      found, valid for the next 24 hours. */
  lemma LoginIssuesSession(db: Db, env: Env, req: Option<CompanyAuth.LoginRequest>, later: nat)
    requires Jws.Faithful(env.codec)
    requires Login(db, env, req).status == StatusOK
    requires |Login(db, env, req).body.value.token| <= Jwt.MaxTokenLength
    requires env.now <= later < env.now + Jwt.SessionLifetime
    ensures Jwt.ValidateToken(env.cfg, env.codec, Login(db, env, req).body.value.token, later)
      == Success(Jwt.SessionClaims(Login(db, env, req).body.value.candidato.id, CandidateKind, Jwt.SessionIssuer,
                                   Some(env.now), Some(env.now), Some(env.now + Jwt.SessionLifetime)))
  {
    var c := Login(db, env, req).body.value.candidato;
    Jwt.SessionTokenRoundTrip(env.cfg, env.codec, c.id, CandidateKind, env.now, later);
  }

  /** Some candidate holds this e-mail and a digest of this password. */
  predicate Holds(db: Db, h: Jwt.Hasher, email: string, pw: string) {
    exists c :: c in db.candidates && c.email == email && h.compare(c.password, pw)
  }

  /** With e-mails unique and the lookup answering, sign-in succeeds exactly
      when some candidate holds the normalised e-mail and the password. */
  lemma LoginAcceptsExactlyHolders(db: Db, env: Env, q: CompanyAuth.LoginRequest)
    requires AccountsConsistent(db)
    requires CandidateByEmail !in env.faults && Jwt.Initialised(env.cfg)
    ensures Login(db, env, Some(q)).status == StatusOK <==> Holds(db, env.hasher, Jwt.SanitizeEmail(q.email), q.password)
    ensures Login(db, env, Some(q)).status != StatusOK ==> Login(db, env, Some(q)) == Erro(StatusUnauthorized, CompanyAuth.BadCredentials)
  {
    var email := Jwt.SanitizeEmail(q.email);
    var f := Candidates.GetByEmail(db.candidates, email, env.faults);
    if Holds(db, env.hasher, email, q.password) {
      var c :| c in db.candidates && c.email == email && env.hasher.compare(c.password, q.password);
      var i :| 0 <= i < |db.candidates| && db.candidates[i] == c;
      assert f.Success?;
      var j :| 0 <= j < |db.candidates| && db.candidates[j] == f.value;
      assert i == j;
    }
  }

  /** Under unique e-mails the only possible holder is the account with that e-mail. */
  lemma HoldsOnlyOwner(db: Db, h: Jwt.Hasher, k: nat, pw: string)
    requires AccountsConsistent(db) && k < |db.candidates|
    ensures Holds(db, h, db.candidates[k].email, pw) <==> h.compare(db.candidates[k].password, pw)
  {
    if Holds(db, h, db.candidates[k].email, pw) {
      var d :| d in db.candidates && d.email == db.candidates[k].email && h.compare(d.password, pw);
      var i :| 0 <= i < |db.candidates| && db.candidates[i] == d;
      assert i == k;
    }
  }

  /** Under unique e-mails a successful sign-in returns the account with that e-mail. */
  lemma LoginFindsOwner(db: Db, env: Env, q: CompanyAuth.LoginRequest, k: nat)
    requires AccountsConsistent(db) && k < |db.candidates|
    requires db.candidates[k].email == Jwt.SanitizeEmail(q.email)
    requires Login(db, env, Some(q)).status == StatusOK
    ensures Login(db, env, Some(q)).body.value.candidato == db.candidates[k]
  {
    var e := Login(db, env, Some(q)).body.value.candidato;
    var i :| 0 <= i < |db.candidates| && db.candidates[i] == e;
    assert i == k;
  }

  /** Sign-in against collections that gained a candidate through registration. */
  lemma EnrolledThenLogin(db: Db, db': Db, env: Env, q: RegisterRequest, later: Env, login: CompanyAuth.LoginRequest)
    requires AccountsConsistent(db') && AddsCandidate(db, db', env, q) && Jwt.Sound(env.hasher)
    requires later.faults == {} && later.hasher == env.hasher && Jwt.Initialised(later.cfg)
    requires Jwt.SanitizeEmail(login.email) == Jwt.SanitizeEmail(q.email)
    ensures Login(db', later, Some(login)).status == StatusOK <==> login.password == q.password
    ensures login.password == q.password ==> Login(db', later, Some(login)).body.value.candidato == db'.candidates[|db.candidates|]
  {
    var n := |db.candidates|;
    HoldsOnlyOwner(db', env.hasher, n, login.password);
    Jwt.HashThenCheck(env.hasher, q.password, env.salt, login.password);
    LoginAcceptsExactlyHolders(db', later, login);
    if login.password == q.password {
      LoginFindsOwner(db', later, login, n);
    }
  }

  /** A candidate registered with password `pw` signs in with its e-mail in any
      letter case or surrounded by blanks, with `pw` and with no other password. */
  lemma RegisterThenLogin(db: Db, env: Env, q: RegisterRequest, later: Env, login: CompanyAuth.LoginRequest)
    requires AccountsConsistent(db) && Jwt.Sound(env.hasher)
    requires CandidateByEmail !in env.faults && CompanyByEmail !in env.faults
    requires Register(db, env, Some(q)).reply.status == StatusCreated
    requires later.faults == {} && later.hasher == env.hasher && Jwt.Initialised(later.cfg)
    requires Jwt.SanitizeEmail(login.email) == Jwt.SanitizeEmail(q.email)
    ensures Login(Register(db, env, Some(q)).db, later, Some(login)).status == StatusOK <==> login.password == q.password
    ensures login.password == q.password ==>
      Login(Register(db, env, Some(q)).db, later, Some(login)).body.value.candidato == Register(db, env, Some(q)).reply.body.value.candidato
  {
    var o := Register(db, env, Some(q));
    assert o.db != db by { assert |o.db.candidates| != |db.candidates|; }
    RegisterKeepsAccountsConsistent(db, env, Some(q));
    EnrolledThenLogin(db, o.db, env, q, later, login);
  }
}
