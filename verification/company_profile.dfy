/** internal/http/handlers/company.go: a signed-in company reads and edits its
    own profile. The caller is the id the auth middleware put in the
    request context.

    The update exists twice. `UpdateProfileAsWritten` follows the code: the
    edited document goes to the repository's `$set`, which leaves out the
    `omitempty` fields that are empty, so clearing one of them answers 200
    while the stored profile keeps the old value. `UpdateProfile` stores the
    document it shows, which is what the handler's reply promises. */
module CompanyProfile {
  import opened Wrappers
  import opened Store
  import opened Http
  import opened Db
  import Companies

  const NotFound: string := "Empresa não encontrada"
  const InvalidData: string := "Dados inválidos"
  const UpdateFailed: string := "Erro ao atualizar perfil"
  const Updated: string := "Perfil atualizado com sucesso"

  /** `{"mensagem", "empresa"}`. */
  datatype ProfileUpdated = ProfileUpdated(mensagem: string, empresa: Companies.Company)

  /** Some stored company carries the caller's id. */
  predicate Registered(db: Db, caller: string) {
    && ObjectIdFromHex(caller).Success?
    && exists k :: 0 <= k < |db.companies| && db.companies[k].id == ObjectIdFromHex(caller).value
  }

  /** `GetProfile`: the caller's own document. A failed lookup of any kind is
      answered 404. */
  function GetProfile(db: Db, env: Env, caller: string): (r: Reply<Companies.Company>)
    ensures r.status in {StatusOK, StatusNotFound}
    ensures r.status == StatusNotFound ==> r == Erro(StatusNotFound, NotFound)
    ensures r.status == StatusOK ==>
      && r.body.Data? && r.body.value in db.companies
      && ObjectIdFromHex(caller) == Success(r.body.value.id)
    ensures CompanyById !in env.faults ==> (r.status == StatusOK <==> Registered(db, caller))
  {
    match Companies.GetById(db.companies, caller, env.faults)
    case Failure(_) => Erro(StatusNotFound, NotFound)
    case Success(c) => Ok(StatusOK, c)
  }

  /** The nine fields a company may edit, taken from the request; the rest kept. */
  function Edit(cur: Companies.Company, body: Companies.Company): Companies.Company {
    cur.(name := body.name, legalName := body.legalName, phone := body.phone, website := body.website,
         logo := body.logo, about := body.about, employeeCount := body.employeeCount,
         location := body.location, sector := body.sector)
  }

  /** `shown` is `cur` edited by `body` at time `now`, field by field: the
      editable fields come from the request; the identity, the CNPJ, the
      credentials, the verification status and the creation time from the
      stored document. */
  predicate EditedFrom(shown: Companies.Company, cur: Companies.Company, body: Companies.Company, now: nat) {
    && shown.name == body.name && shown.legalName == body.legalName && shown.phone == body.phone
    && shown.website == body.website && shown.logo == body.logo && shown.about == body.about
    && shown.employeeCount == body.employeeCount && shown.location == body.location && shown.sector == body.sector
    && shown.id == cur.id && shown.cnpj == cur.cnpj && shown.email == cur.email && shown.password == cur.password
    && shown.verificationStatus == cur.verificationStatus && shown.createdAt == cur.createdAt && shown.updatedAt == now
  }

  /** The handler, with the document handed to the store either the edited one
      (`omitEmpty` false) or what `$set` makes of it (`omitEmpty` true). */
  function UpdateWith(db: Db, env: Env, caller: string, body: Option<Companies.Company>, omitEmpty: bool): (o: Outcome<ProfileUpdated>)
    ensures o.reply.status in {StatusOK, StatusBadRequest, StatusNotFound, StatusInternalServerError}
    ensures o.reply.status != StatusOK ==> o.db == db && IsError(o.reply)
    ensures o.reply.status == StatusOK ==>
      && body.Some? && o.reply.body.Data?
      && var shown := o.reply.body.value.empresa;
      && o.reply.body.value.mensagem == Updated
      && exists cur :: cur in db.companies && ObjectIdFromHex(caller) == Success(cur.id) && EditedFrom(shown, cur, body.value, env.now)
           && o.db == db.(companies := Replace(db.companies, Companies.IdOf, if omitEmpty then Companies.SetOver(cur, shown) else shown))
  {
    match Companies.GetById(db.companies, caller, env.faults)
    case Failure(_) => Outcome(Erro(StatusNotFound, NotFound), db)
    case Success(cur) =>
      match body
      case None => Outcome(Erro(StatusBadRequest, InvalidData), db)
      case Some(b) =>
        var shown := Edit(cur, b).(updatedAt := env.now);
        var written := if omitEmpty then Companies.SetOver(cur, shown) else shown;
        assert written.(updatedAt := env.now) == written;
        assert EditedFrom(shown, cur, b, env.now);
        match Companies.Update(db.companies, written, env.now, env.faults)
        case Failure(_) => Outcome(Erro(StatusInternalServerError, UpdateFailed), db)
        case Success(s) => Outcome(Ok(StatusOK, ProfileUpdated(Updated, shown)), db.(companies := s))
  }

  /** `UpdateProfile` as company.go writes it. */
  function UpdateProfileAsWritten(db: Db, env: Env, caller: string, body: Option<Companies.Company>): (o: Outcome<ProfileUpdated>)
    ensures o.reply.status == StatusOK ==>
      && o.reply.body.Data?
      && exists cur :: cur in db.companies && ObjectIdFromHex(caller) == Success(cur.id)
           && o.db == db.(companies := Replace(db.companies, Companies.IdOf, Companies.SetOver(cur, o.reply.body.value.empresa)))
  {
    UpdateWith(db, env, caller, body, true)
  }

  /** `UpdateProfile` storing what it shows. A lookup failure of any kind is a
      404, a body that does not decode a 400, a failed write a 500; on success
      the caller's document is edited in place and nothing else changes. */
  function UpdateProfile(db: Db, env: Env, caller: string, body: Option<Companies.Company>): (o: Outcome<ProfileUpdated>)
    ensures o.reply.status in {StatusOK, StatusBadRequest, StatusNotFound, StatusInternalServerError}
    ensures o.reply.status != StatusOK ==> o.db == db && IsError(o.reply)
    ensures CompanyById !in env.faults ==> (o.reply.status == StatusNotFound <==> !Registered(db, caller))
    ensures o.reply.status == StatusBadRequest <==> Companies.GetById(db.companies, caller, env.faults).Success? && body.None?
    ensures CompanyById !in env.faults && CompanyUpdate !in env.faults ==>
      (o.reply.status == StatusOK <==> Registered(db, caller) && body.Some?)
    ensures o.reply.status == StatusOK ==>
      && body.Some? && o.reply.body.Data? && o.reply.body.value.mensagem == Updated
      && var shown := o.reply.body.value.empresa;
      && (exists cur :: cur in db.companies && ObjectIdFromHex(caller) == Success(cur.id) && EditedFrom(shown, cur, body.value, env.now))
      && o.db == db.(companies := Replace(db.companies, Companies.IdOf, shown))
      && shown in o.db.companies
  {
    UpdateWith(db, env, caller, body, false)
  }

  /** Editing a profile never touches an e-mail or a CNPJ, so the accounts stay consistent. */
  lemma {:induction false} UpdateProfileKeepsConsistent(db: Db, env: Env, caller: string, body: Option<Companies.Company>)
    requires AccountsConsistent(db) && UniqueIds(db.companies, Companies.IdOf)
    ensures AccountsConsistent(UpdateProfile(db, env, caller, body).db)
    ensures UniqueIds(UpdateProfile(db, env, caller, body).db.companies, Companies.IdOf)
  {
    var o := UpdateProfile(db, env, caller, body);
    if o.reply.status == StatusOK {
      var shown := o.reply.body.value.empresa;
      var cur :| cur in db.companies && ObjectIdFromHex(caller) == Success(cur.id) && EditedFrom(shown, cur, body.value, env.now);
      ReplacePointwise(db.companies, Companies.IdOf, shown);
      forall k | 0 <= k < |db.companies| ensures o.db.companies[k].email == db.companies[k].email && o.db.companies[k].cnpj == db.companies[k].cnpj {
        if db.companies[k].id == shown.id {
          UniqueIdAt(db.companies, Companies.IdOf, cur, k);
        }
      }
      SameCompanyKeys(db, o.db.companies);
    }
  }

  /** After a successful edit the caller reads back exactly the profile shown. */
  lemma UpdateThenGet(db: Db, env: Env, later: Env, caller: string, body: Option<Companies.Company>)
    requires UniqueIds(db.companies, Companies.IdOf)
    requires UpdateProfile(db, env, caller, body).reply.status == StatusOK
    requires CompanyById !in later.faults
    ensures GetProfile(UpdateProfile(db, env, caller, body).db, later, caller)
         == Ok(StatusOK, UpdateProfile(db, env, caller, body).reply.body.value.empresa)
  {
    var o := UpdateProfile(db, env, caller, body);
    var shown := o.reply.body.value.empresa;
    var r := GetProfile(o.db, later, caller);
    assert r.status == StatusOK;
    var k :| 0 <= k < |o.db.companies| && o.db.companies[k] == r.body.value;
    UniqueIdAt(o.db.companies, Companies.IdOf, shown, k);
  }

  /** The discrepancy of the code as written: a company that clears a filled-in
      website is answered 200 with an empty one, but the stored profile keeps it. */
  lemma AsWrittenKeepsClearedWebsite(db: Db, env: Env, caller: string, body: Companies.Company)
    requires UniqueIds(db.companies, Companies.IdOf)
    requires Companies.GetById(db.companies, caller, env.faults).Success?
    requires Companies.GetById(db.companies, caller, env.faults).value.website != ""
    requires body.website == "" && CompanyUpdate !in env.faults
    ensures UpdateProfileAsWritten(db, env, caller, Some(body)).reply.status == StatusOK
    ensures UpdateProfileAsWritten(db, env, caller, Some(body)).reply.body.value.empresa.website == ""
    ensures forall c :: c in UpdateProfileAsWritten(db, env, caller, Some(body)).db.companies && c.id == ObjectIdFromHex(caller).value
              ==> c.website == Companies.GetById(db.companies, caller, env.faults).value.website
  {
    var cur := Companies.GetById(db.companies, caller, env.faults).value;
    var o := UpdateProfileAsWritten(db, env, caller, Some(body));
    var written := Companies.SetOver(cur, o.reply.body.value.empresa);
    assert o.db.companies == Replace(db.companies, Companies.IdOf, written);
    assert written.website == cur.website && written.id == cur.id;
    forall c | c in o.db.companies && c.id == ObjectIdFromHex(caller).value ensures c.website == cur.website {
      ReplacedById(db.companies, Companies.IdOf, written, c);
    }
  }
}
