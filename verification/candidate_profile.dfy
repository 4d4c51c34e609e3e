/** internal/http/handlers/candidate.go: a signed-in candidate reads and edits
    their own profile. The caller is the id the auth middleware put in the
    request context.

    The update exists twice. `UpdateProfileAsWritten` follows the code: the
    edited document goes to the repository's `$set`, which leaves out the
    `omitempty` fields that are empty, so clearing one of them answers 200
    while the stored profile keeps the old value. `UpdateProfile` stores the
    document it shows, which is what the handler's reply promises. */
module CandidateProfile {
  import opened Wrappers
  import opened Store
  import opened Http
  import opened Db
  import Candidates

  const NotFound: string := "Candidato não encontrado"
  const InvalidData: string := "Dados inválidos"
  const UpdateFailed: string := "Erro ao atualizar perfil"
  const Updated: string := "Perfil atualizado com sucesso"

  /** `{"mensagem", "candidato"}`. */
  datatype ProfileUpdated = ProfileUpdated(mensagem: string, candidato: Candidates.Candidate)

  /** Some stored candidate carries the caller's id. */
  predicate Registered(db: Db, caller: string) {
    && ObjectIdFromHex(caller).Success?
    && exists k :: 0 <= k < |db.candidates| && db.candidates[k].id == ObjectIdFromHex(caller).value
  }

  /** `GetProfile`: the caller's own document. A failed lookup of any kind is
      answered 404. */
  function GetProfile(db: Db, env: Env, caller: string): (r: Reply<Candidates.Candidate>)
    ensures r.status in {StatusOK, StatusNotFound}
    ensures r.status == StatusNotFound ==> r == Erro(StatusNotFound, NotFound)
    ensures r.status == StatusOK ==>
      && r.body.Data? && r.body.value in db.candidates
      && ObjectIdFromHex(caller) == Success(r.body.value.id)
    ensures CandidateById !in env.faults ==> (r.status == StatusOK <==> Registered(db, caller))
  {
    match Candidates.GetById(db.candidates, caller, env.faults)
    case Failure(_) => Erro(StatusNotFound, NotFound)
    case Success(c) => Ok(StatusOK, c)
  }

  /** The nine fields a candidate may edit, taken from the request; the rest kept. */
  function Edit(cur: Candidates.Candidate, body: Candidates.Candidate): Candidates.Candidate {
    cur.(name := body.name, phone := body.phone, resume := body.resume, skills := body.skills,
         experiences := body.experiences, location := body.location, linkedIn := body.linkedIn,
         gitHub := body.gitHub, portfolio := body.portfolio)
  }

  /** `shown` is `cur` edited by `body` at time `now`, field by field: the
      editable fields come from the request, the identity, the credentials and
      the creation time from the stored document. */
  predicate EditedFrom(shown: Candidates.Candidate, cur: Candidates.Candidate, body: Candidates.Candidate, now: nat) {
    && shown.name == body.name && shown.phone == body.phone && shown.resume == body.resume
    && shown.skills == body.skills && shown.experiences == body.experiences
    && shown.location == body.location && shown.linkedIn == body.linkedIn
    && shown.gitHub == body.gitHub && shown.portfolio == body.portfolio
    && shown.id == cur.id && shown.email == cur.email && shown.password == cur.password
    && shown.createdAt == cur.createdAt && shown.updatedAt == now
  }

  /** The handler, with the document handed to the store either the edited one
      (`omitEmpty` false) or what `$set` makes of it (`omitEmpty` true). */
  function UpdateWith(db: Db, env: Env, caller: string, body: Option<Candidates.Candidate>, omitEmpty: bool): (o: Outcome<ProfileUpdated>)
    ensures o.reply.status in {StatusOK, StatusBadRequest, StatusNotFound, StatusInternalServerError}
    ensures o.reply.status != StatusOK ==> o.db == db && IsError(o.reply)
    ensures o.reply.status == StatusOK ==>
      && body.Some? && o.reply.body.Data?
      && var shown := o.reply.body.value.candidato;
      && o.reply.body.value.mensagem == Updated
      && exists cur :: cur in db.candidates && ObjectIdFromHex(caller) == Success(cur.id) && EditedFrom(shown, cur, body.value, env.now)
           && o.db == db.(candidates := Replace(db.candidates, Candidates.IdOf, if omitEmpty then Candidates.SetOver(cur, shown) else shown))
  {
    match Candidates.GetById(db.candidates, caller, env.faults)
    case Failure(_) => Outcome(Erro(StatusNotFound, NotFound), db)
    case Success(cur) =>
      match body
      case None => Outcome(Erro(StatusBadRequest, InvalidData), db)
      case Some(b) =>
        var shown := Edit(cur, b).(updatedAt := env.now);
        var written := if omitEmpty then Candidates.SetOver(cur, shown) else shown;
        assert written.(updatedAt := env.now) == written;
        assert EditedFrom(shown, cur, b, env.now);
        match Candidates.Update(db.candidates, written, env.now, env.faults)
        case Failure(_) => Outcome(Erro(StatusInternalServerError, UpdateFailed), db)
        case Success(s) => Outcome(Ok(StatusOK, ProfileUpdated(Updated, shown)), db.(candidates := s))
  }

  /** `UpdateProfile` as candidate.go writes it. */
  function UpdateProfileAsWritten(db: Db, env: Env, caller: string, body: Option<Candidates.Candidate>): (o: Outcome<ProfileUpdated>)
    ensures o.reply.status == StatusOK ==>
      && o.reply.body.Data?
      && exists cur :: cur in db.candidates && ObjectIdFromHex(caller) == Success(cur.id)
           && o.db == db.(candidates := Replace(db.candidates, Candidates.IdOf, Candidates.SetOver(cur, o.reply.body.value.candidato)))
  {
    UpdateWith(db, env, caller, body, true)
  }

  /** `UpdateProfile` storing what it shows. A lookup failure of any kind is a
      404, a body that does not decode a 400, a failed write a 500; on success
      the caller's document is edited in place and nothing else changes. */
  function UpdateProfile(db: Db, env: Env, caller: string, body: Option<Candidates.Candidate>): (o: Outcome<ProfileUpdated>)
    ensures o.reply.status in {StatusOK, StatusBadRequest, StatusNotFound, StatusInternalServerError}
    ensures o.reply.status != StatusOK ==> o.db == db && IsError(o.reply)
    ensures CandidateById !in env.faults ==> (o.reply.status == StatusNotFound <==> !Registered(db, caller))
    ensures o.reply.status == StatusBadRequest <==> Candidates.GetById(db.candidates, caller, env.faults).Success? && body.None?
    ensures CandidateById !in env.faults && CandidateUpdate !in env.faults ==>
      (o.reply.status == StatusOK <==> Registered(db, caller) && body.Some?)
    ensures o.reply.status == StatusOK ==>
      && body.Some? && o.reply.body.Data? && o.reply.body.value.mensagem == Updated
      && var shown := o.reply.body.value.candidato;
      && (exists cur :: cur in db.candidates && ObjectIdFromHex(caller) == Success(cur.id) && EditedFrom(shown, cur, body.value, env.now))
      && o.db == db.(candidates := Replace(db.candidates, Candidates.IdOf, shown))
      && shown in o.db.candidates
  {
    UpdateWith(db, env, caller, body, false)
  }

  /** Editing a profile never touches an e-mail, so the accounts stay consistent. */
  lemma {:induction false} UpdateProfileKeepsConsistent(db: Db, env: Env, caller: string, body: Option<Candidates.Candidate>)
    requires AccountsConsistent(db) && UniqueIds(db.candidates, Candidates.IdOf)
    ensures AccountsConsistent(UpdateProfile(db, env, caller, body).db)
    ensures UniqueIds(UpdateProfile(db, env, caller, body).db.candidates, Candidates.IdOf)
  {
    var o := UpdateProfile(db, env, caller, body);
    if o.reply.status == StatusOK {
      var shown := o.reply.body.value.candidato;
      var cur :| cur in db.candidates && ObjectIdFromHex(caller) == Success(cur.id) && EditedFrom(shown, cur, body.value, env.now);
      ReplacePointwise(db.candidates, Candidates.IdOf, shown);
      forall k | 0 <= k < |db.candidates| ensures o.db.candidates[k].email == db.candidates[k].email {
        if db.candidates[k].id == shown.id {
          UniqueIdAt(db.candidates, Candidates.IdOf, cur, k);
        }
      }
      SameCandidateEmails(db, o.db.candidates);
    }
  }

  /** After a successful edit the caller reads back exactly the profile shown. */
  lemma UpdateThenGet(db: Db, env: Env, later: Env, caller: string, body: Option<Candidates.Candidate>)
    requires UniqueIds(db.candidates, Candidates.IdOf)
    requires UpdateProfile(db, env, caller, body).reply.status == StatusOK
    requires CandidateById !in later.faults
    ensures GetProfile(UpdateProfile(db, env, caller, body).db, later, caller)
         == Ok(StatusOK, UpdateProfile(db, env, caller, body).reply.body.value.candidato)
  {
    var o := UpdateProfile(db, env, caller, body);
    var shown := o.reply.body.value.candidato;
    var r := GetProfile(o.db, later, caller);
    assert r.status == StatusOK;
    var k :| 0 <= k < |o.db.candidates| && o.db.candidates[k] == r.body.value;
    UniqueIdAt(o.db.candidates, Candidates.IdOf, shown, k);
  }

  /** The discrepancy of the code as written: a candidate who clears a filled-in
      résumé is answered 200 with an empty one, but the stored profile keeps it. */
  lemma AsWrittenKeepsClearedResume(db: Db, env: Env, caller: string, body: Candidates.Candidate)
    requires UniqueIds(db.candidates, Candidates.IdOf)
    requires Candidates.GetById(db.candidates, caller, env.faults).Success?
    requires Candidates.GetById(db.candidates, caller, env.faults).value.resume != ""
    requires body.resume == "" && CandidateUpdate !in env.faults
    ensures UpdateProfileAsWritten(db, env, caller, Some(body)).reply.status == StatusOK
    ensures UpdateProfileAsWritten(db, env, caller, Some(body)).reply.body.value.candidato.resume == ""
    ensures forall c :: c in UpdateProfileAsWritten(db, env, caller, Some(body)).db.candidates && c.id == ObjectIdFromHex(caller).value
              ==> c.resume == Candidates.GetById(db.candidates, caller, env.faults).value.resume
  {
    var cur := Candidates.GetById(db.candidates, caller, env.faults).value;
    var o := UpdateProfileAsWritten(db, env, caller, Some(body));
    var written := Candidates.SetOver(cur, o.reply.body.value.candidato);
    assert o.db.candidates == Replace(db.candidates, Candidates.IdOf, written);
    assert written.resume == cur.resume && written.id == cur.id;
    forall c | c in o.db.candidates && c.id == ObjectIdFromHex(caller).value ensures c.resume == cur.resume {
      ReplacedById(db.candidates, Candidates.IdOf, written, c);
    }
  }
}
