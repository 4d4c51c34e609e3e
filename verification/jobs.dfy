/** internal/http/handlers/jobs.go: the public job board. Listing and lookup
    are open; creation, editing, deletion and (de)activation work on any job
    by id, with no owner check (the router does not expose them; the company
    routes in company_jobs.go do the owned variants). */
module JobHandlers {
  import opened Wrappers
  import opened Store
  import opened Http
  import opened Db
  import opened JobsStore
  import Strings

  const InvalidData: string := "Dados inválidos"
  const ListFailed: string := "Erro ao buscar vagas"
  const MissingFields: string := "Campos obrigatórios: title, description, company, location"
  const CheckFailed: string := "Erro ao verificar vaga existente"
  const DuplicateTitle: string := "Já existe uma vaga com este título nesta empresa"
  const CreateFailed: string := "Erro ao criar vaga"
  const Created: string := "Vaga criada com sucesso"
  const MissingId: string := "ID não fornecido"
  const JobNotFound: string := "Vaga não encontrada"
  const UpdateFailed: string := "Erro ao atualizar vaga"
  const Updated: string := "Vaga atualizada com sucesso"
  const DeleteFailed: string := "Erro ao deletar vaga"
  const Deleted: string := "Vaga deletada com sucesso"
  const DeactivateFailed: string := "Erro ao desativar vaga"
  const Deactivated: string := "Vaga desativada com sucesso"
  const ActivateFailed: string := "Erro ao ativar vaga"
  const Activated: string := "Vaga ativada com sucesso"
  const ViewFailed: string := "Erro ao registrar visualização"
  const ViewRecorded: string := "Visualização registrada"

  const JobsPrefix: string := "/jobs/"
  const DeactivatePrefix: string := "deactivate/"
  const ActivatePrefix: string := "activate/"
  /** The length of "/view", which `RegisterView` cuts off without looking at it. */
  const ViewSuffixLength: nat := 5

  /** `{"mensagem", "vaga"}`. */
  datatype JobBody = JobBody(mensagem: string, vaga: Job)

  /** The fields both `Create` and `Update` insist on. */
  predicate HasRequiredFields(j: Job) {
    j.title != "" && j.description != "" && j.company != "" && j.location != ""
  }

  /** What `Create`'s duplicate check sets out to keep: no two jobs share a
      title within one company name. */
  predicate TitlesUnique(s: seq<Job>) {
    forall i, j :: 0 <= i < j < |s| ==> !(s[i].title == s[j].title && s[i].company == s[j].company)
  }

  /** The path segment after "/jobs/". */
  function PathId(path: string): (id: string)
    requires |path| >= |JobsPrefix|
    ensures path == path[..|JobsPrefix|] + id
  {
    path[|JobsPrefix|..]
  }

  // ----- List -----

  /** `List` with no query filters: every job. */
  function List(db: Db, env: Env): (r: Reply<seq<Job>>)
    ensures r.status in {StatusOK, StatusInternalServerError}
    ensures r.status == StatusOK <==> JobsList !in env.faults
    ensures r.status == StatusOK ==> r.body == Data(db.jobs)
    ensures r.status == StatusInternalServerError ==> r == Erro(StatusInternalServerError, ListFailed)
  {
    match JobsStore.List(db.jobs, env.faults)
    case Failure(_) => Erro(StatusInternalServerError, ListFailed)
    case Success(js) => Ok(StatusOK, js)
  }

  // ----- Create -----

  /** `Create`: required fields, then no job with the same title and company
      name, then the job is stored active whatever the body said. */
  function Create(db: Db, env: Env, req: Option<Job>): (o: Outcome<JobBody>)
    ensures o.reply.status in {StatusCreated, StatusBadRequest, StatusConflict, StatusInternalServerError}
    ensures o.reply.status != StatusCreated ==> o.db == db
    ensures o.reply.status == StatusBadRequest <==> req.None? || !HasRequiredFields(req.value)
    ensures o.reply.status == StatusConflict <==>
      && req.Some? && HasRequiredFields(req.value) && JobExistsByTitle !in env.faults
      && exists j :: j in db.jobs && j.title == req.value.title && j.company == req.value.company
    ensures o.reply.status == StatusCreated ==>
      && req.Some? && HasRequiredFields(req.value)
      && (forall j :: j in db.jobs ==> !(j.title == req.value.title && j.company == req.value.company))
      && |o.db.jobs| == |db.jobs| + 1
      && var stored := o.db.jobs[|db.jobs|];
      && o.db == db.(jobs := db.jobs + [stored])
      && o.reply.body == Data(JobBody(Created, stored))
      && stored.isActive && stored.id == env.freshId
      && stored.createdAt == env.now && stored.updatedAt == env.now
      && stored.(id := req.value.id, createdAt := req.value.createdAt, updatedAt := req.value.updatedAt, isActive := req.value.isActive) == req.value
  {
    match req
    case None => Outcome(Erro(StatusBadRequest, InvalidData), db)
    case Some(job) =>
      if !HasRequiredFields(job) then Outcome(Erro(StatusBadRequest, MissingFields), db)
      else match ExistsByTitleAndCompany(db.jobs, job.title, job.company, env.faults)
        case Failure(_) => Outcome(Erro(StatusInternalServerError, CheckFailed), db)
        case Success(taken) =>
          if taken then Outcome(Erro(StatusConflict, DuplicateTitle), db)
          else match JobsStore.Create(db.jobs, job.(isActive := true), env.freshId, env.now, env.faults)
            case Failure(_) => Outcome(Erro(StatusInternalServerError, CreateFailed), db)
            case Success((jobs, stored)) => Outcome(Ok(StatusCreated, JobBody(Created, stored)), db.(jobs := jobs))
  }

  /** `Create` never lets one company name hold two jobs with one title. */
  lemma CreateKeepsTitlesUnique(db: Db, env: Env, req: Option<Job>)
    requires TitlesUnique(db.jobs)
    ensures TitlesUnique(Create(db, env, req).db.jobs)
  {
    var o := Create(db, env, req);
    if o.reply.status == StatusCreated {
      var s := o.db.jobs;
      forall i, j | 0 <= i < j < |s| ensures !(s[i].title == s[j].title && s[i].company == s[j].company) {
        if j == |db.jobs| {
          assert s[i] in db.jobs;
        }
      }
    }
  }

  /** A created job is what a later `GetByID` on its id returns. */
  lemma CreateThenGetById(db: Db, env: Env, req: Option<Job>)
    requires IsObjectId(env.freshId) && JobById !in env.faults
    requires Create(db, env, req).reply.status == StatusCreated
    ensures var o := Create(db, env, req);
      GetById(o.db, env, JobsPrefix + env.freshId) == Ok(StatusOK, o.reply.body.value.vaga)
  {
    var job := req.value.(isActive := true);
    JobsStore.CreateThenGet(db.jobs, job, env.freshId, env.now, env.faults);
    assert (JobsPrefix + env.freshId)[|JobsPrefix|..] == env.freshId;
  }

  // ----- GetByID -----

  /** `GetByID`: the job whose id is the rest of the path. */
  function GetById(db: Db, env: Env, path: string): (r: Reply<Job>)
    requires |path| >= |JobsPrefix|
    ensures r.status in {StatusOK, StatusBadRequest, StatusNotFound}
    ensures r.status == StatusBadRequest <==> PathId(path) == ""
    ensures r.status == StatusNotFound ==> r == Erro(StatusNotFound, JobNotFound)
    ensures r.status == StatusOK ==>
      && ObjectIdFromHex(PathId(path)).Success?
      && r.body.Data? && r.body.value in db.jobs && r.body.value.id == ObjectIdFromHex(PathId(path)).value
    ensures PathId(path) != "" && ObjectIdFromHex(PathId(path)).Success? && JobById !in env.faults ==>
      (r.status == StatusOK <==> exists j :: j in db.jobs && j.id == ObjectIdFromHex(PathId(path)).value)
  {
    var id := PathId(path);
    if id == "" then Erro(StatusBadRequest, MissingId)
    else match JobsStore.GetById(db.jobs, id, env.faults)
      case Failure(_) => Erro(StatusNotFound, JobNotFound)
      case Success(job) => Ok(StatusOK, job)
  }

  // ----- Update -----

  /** `Update`: the body replaces the stored job except for its id and
      creation time; the repository stamps `updatedAt`. */
  function Update(db: Db, env: Env, path: string, req: Option<Job>): (o: Outcome<JobBody>)
    requires |path| >= |JobsPrefix|
    ensures o.reply.status in {StatusOK, StatusBadRequest, StatusNotFound, StatusInternalServerError}
    ensures o.reply.status != StatusOK ==> o.db == db
    ensures o.reply.status == StatusNotFound ==> o.reply == Erro(StatusNotFound, JobNotFound)
    ensures o.reply.status == StatusOK ==>
      && req.Some? && HasRequiredFields(req.value) && ObjectIdFromHex(PathId(path)).Success?
      && exists prior :: prior in db.jobs && prior.id == ObjectIdFromHex(PathId(path)).value
           && var stored := req.value.(id := prior.id, createdAt := prior.createdAt, updatedAt := env.now);
           && o.reply.body == Data(JobBody(Updated, stored))
           && o.db == db.(jobs := Replace(db.jobs, IdOf, stored))
    ensures o.reply.status == StatusOK ==>
      && |o.db.jobs| == |db.jobs|
      && forall k :: 0 <= k < |db.jobs| ==>
           o.db.jobs[k] == db.jobs[k] || (o.db.jobs[k].id == db.jobs[k].id && o.db.jobs[k].createdAt == db.jobs[k].createdAt)
  {
    var id := PathId(path);
    if id == "" then Outcome(Erro(StatusBadRequest, MissingId), db)
    else match JobsStore.GetById(db.jobs, id, env.faults)
      case Failure(_) => Outcome(Erro(StatusNotFound, JobNotFound), db)
      case Success(existing) =>
        match req
        case None => Outcome(Erro(StatusBadRequest, InvalidData), db)
        case Some(body) =>
          var job := body.(id := existing.id, createdAt := existing.createdAt);
          if !HasRequiredFields(job) then Outcome(Erro(StatusBadRequest, MissingFields), db)
          else match JobsStore.Update(db.jobs, job, env.now, env.faults)
            case Failure(_) => Outcome(Erro(StatusInternalServerError, UpdateFailed), db)
            case Success(jobs) => Outcome(Ok(StatusOK, JobBody(Updated, job.(updatedAt := env.now))), db.(jobs := jobs))
  }

  // ----- Delete -----

  /** `Delete`: the job must exist; then it is removed. */
  function Delete(db: Db, env: Env, path: string): (o: Outcome<()>)
    requires |path| >= |JobsPrefix|
    ensures o.reply.status in {StatusOK, StatusBadRequest, StatusNotFound, StatusInternalServerError}
    ensures o.reply.status != StatusOK ==> o.db == db
    ensures o.reply.status == StatusOK ==>
      && o.reply == Mensagem(StatusOK, Deleted)
      && ObjectIdFromHex(PathId(path)).Success?
      && var id := ObjectIdFromHex(PathId(path)).value;
      && (exists j :: j in db.jobs && j.id == id)
      && o.db == db.(jobs := o.db.jobs)
      && (UniqueIds(db.jobs, IdOf) ==> forall j :: j in o.db.jobs <==> j in db.jobs && j.id != id)
  {
    var id := PathId(path);
    if id == "" then Outcome(Erro(StatusBadRequest, MissingId), db)
    else match JobsStore.GetById(db.jobs, id, env.faults)
      case Failure(_) => Outcome(Erro(StatusNotFound, JobNotFound), db)
      case Success(_) =>
        match JobsStore.Delete(db.jobs, id, env.faults)
        case Failure(_) => Outcome(Erro(StatusInternalServerError, DeleteFailed), db)
        case Success(jobs) => Outcome(Mensagem(StatusOK, Deleted), db.(jobs := jobs))
  }

  // ----- Deactivate / Activate -----

  /** The id in "/jobs/{id}" or "/jobs/{prefix}{id}": `prefix` is dropped
      from the front only when something follows it. */
  function StripLeading(rest: string, prefix: string): (id: string)
    ensures id == rest || (rest == prefix + id && id != "")
    ensures Strings.HasPrefix(rest, prefix) && |rest| > |prefix| ==> rest == prefix + id
  {
    if |rest| > |prefix| && rest[..|prefix|] == prefix then rest[|prefix|..] else rest
  }

  /** The prefixed form names the same job as the bare id, and a bare id that
      does not start with the prefix is taken as it is. */
  lemma StripLeadingRecovers(prefix: string, id: string)
    ensures id != "" ==> StripLeading(prefix + id, prefix) == id
    ensures !Strings.HasPrefix(id, prefix) ==> StripLeading(id, prefix) == id
  {
    if id != "" {
      assert (prefix + id)[..|prefix|] == prefix;
    }
  }

  /** The prefix alone is not stripped: "/jobs/deactivate/" asks for the job
      whose id is "deactivate/". */
  lemma StripLeadingKeepsBarePrefix(prefix: string)
    ensures StripLeading(prefix, prefix) == prefix
  {
  }

  /** Sets `isActive` on the job with this id and stores it; shared by
      `Deactivate` and `Activate`. */
  function SetActive(db: Db, env: Env, id: string, active: bool, failed: string, done: string): (o: Outcome<JobBody>)
    ensures o.reply.status in {StatusOK, StatusBadRequest, StatusNotFound, StatusInternalServerError}
    ensures o.reply.status != StatusOK ==> o.db == db
    ensures o.reply.status == StatusBadRequest <==> id == ""
    ensures o.reply.status == StatusNotFound ==> o.reply == Erro(StatusNotFound, JobNotFound)
    ensures o.reply.status == StatusInternalServerError ==> o.reply == Erro(StatusInternalServerError, failed)
    ensures o.reply.status == StatusOK ==>
      && ObjectIdFromHex(id).Success?
      && exists prior :: prior in db.jobs && prior.id == ObjectIdFromHex(id).value
           && var stored := prior.(isActive := active, updatedAt := env.now);
           && o.reply.body == Data(JobBody(done, stored))
           && o.db == db.(jobs := Replace(db.jobs, IdOf, stored))
  {
    if id == "" then Outcome(Erro(StatusBadRequest, MissingId), db)
    else match JobsStore.GetById(db.jobs, id, env.faults)
      case Failure(_) => Outcome(Erro(StatusNotFound, JobNotFound), db)
      case Success(job) =>
        var job' := job.(isActive := active);
        match JobsStore.Update(db.jobs, job', env.now, env.faults)
        case Failure(_) => Outcome(Erro(StatusInternalServerError, failed), db)
        case Success(jobs) => Outcome(Ok(StatusOK, JobBody(done, job'.(updatedAt := env.now))), db.(jobs := jobs))
  }

  /** After a successful `SetActive`, looking the job up again shows the new
      state, and no other job has changed. */
  lemma SetActiveThenGet(db: Db, env: Env, id: string, active: bool, failed: string, done: string)
    requires UniqueIds(db.jobs, IdOf)
    requires JobById !in env.faults
    requires SetActive(db, env, id, active, failed, done).reply.status == StatusOK
    ensures var o := SetActive(db, env, id, active, failed, done);
      && JobsStore.GetById(o.db.jobs, id, env.faults) == Success(o.reply.body.value.vaga)
      && o.reply.body.value.vaga.isActive == active
      && forall k :: 0 <= k < |db.jobs| && db.jobs[k].id != ObjectIdFromHex(id).value ==> o.db.jobs[k] == db.jobs[k]
  {
    var oid := ObjectIdFromHex(id).value;
    var prior := JobsStore.GetById(db.jobs, id, env.faults).value;
    JobsStore.UpdateThenGet(db.jobs, prior.(isActive := active), env.now, env.faults);
    assert ObjectIdFromHex(oid) == ObjectIdFromHex(id) by {
      ObjectIdFromHexCanonical(oid);
    }
  }

  /** `Deactivate`: accepts "/jobs/{id}" and "/jobs/deactivate/{id}". */
  function Deactivate(db: Db, env: Env, path: string): (o: Outcome<JobBody>)
    requires |path| >= |JobsPrefix|
    ensures o.reply.status in {StatusOK, StatusBadRequest, StatusNotFound, StatusInternalServerError}
    ensures o.reply.status != StatusOK ==> o.db == db
    ensures o.reply.status == StatusOK ==>
      && ObjectIdFromHex(StripLeading(PathId(path), DeactivatePrefix)).Success?
      && exists prior :: prior in db.jobs && prior.id == ObjectIdFromHex(StripLeading(PathId(path), DeactivatePrefix)).value
           && o.reply.body == Data(JobBody(Deactivated, prior.(isActive := false, updatedAt := env.now)))
           && o.db == db.(jobs := Replace(db.jobs, IdOf, prior.(isActive := false, updatedAt := env.now)))
  {
    SetActive(db, env, StripLeading(PathId(path), DeactivatePrefix), false, DeactivateFailed, Deactivated)
  }

  /** `Activate`: accepts "/jobs/{id}" and "/jobs/activate/{id}". */
  function Activate(db: Db, env: Env, path: string): (o: Outcome<JobBody>)
    requires |path| >= |JobsPrefix|
    ensures o.reply.status in {StatusOK, StatusBadRequest, StatusNotFound, StatusInternalServerError}
    ensures o.reply.status != StatusOK ==> o.db == db
    ensures o.reply.status == StatusOK ==>
      && ObjectIdFromHex(StripLeading(PathId(path), ActivatePrefix)).Success?
      && exists prior :: prior in db.jobs && prior.id == ObjectIdFromHex(StripLeading(PathId(path), ActivatePrefix)).value
           && o.reply.body == Data(JobBody(Activated, prior.(isActive := true, updatedAt := env.now)))
           && o.db == db.(jobs := Replace(db.jobs, IdOf, prior.(isActive := true, updatedAt := env.now)))
  {
    SetActive(db, env, StripLeading(PathId(path), ActivatePrefix), true, ActivateFailed, Activated)
  }

  /** Deactivating through "/jobs/deactivate/{id}" acts on the same job as
      "/jobs/{id}". */
  lemma DeactivateEitherPath(db: Db, env: Env, id: string)
    requires id != "" && !Strings.HasPrefix(id, DeactivatePrefix)
    ensures Deactivate(db, env, JobsPrefix + DeactivatePrefix + id) == Deactivate(db, env, JobsPrefix + id)
  {
    assert PathId(JobsPrefix + DeactivatePrefix + id) == DeactivatePrefix + id;
    assert PathId(JobsPrefix + id) == id;
    StripLeadingRecovers(DeactivatePrefix, id);
  }

  // ----- RegisterView -----

  /** The id of "/jobs/{id}/view": the last five characters are cut off
      whenever more than five remain, whatever they are. */
  function ViewId(rest: string): (id: string)
    ensures |rest| > ViewSuffixLength ==> |id| == |rest| - ViewSuffixLength && rest == id + rest[|id|..]
    ensures |rest| <= ViewSuffixLength ==> id == rest
  {
    if |rest| > ViewSuffixLength then rest[..|rest| - ViewSuffixLength] else rest
  }

  /** Any five trailing characters are dropped, so "{id}/view" and "{id}xxxxx"
      name the same job. */
  lemma ViewIdIgnoresSuffix(id: string, suffix: string)
    requires id != "" && |suffix| == ViewSuffixLength
    ensures ViewId(id + suffix) == id
  {
    assert (id + suffix)[..|id|] == id;
  }

  /** `RegisterView`: the job must exist; then its view counter goes up by one. */
  function RegisterView(db: Db, env: Env, path: string): (o: Outcome<()>)
    requires |path| >= |JobsPrefix|
    ensures o.reply.status in {StatusOK, StatusBadRequest, StatusNotFound, StatusInternalServerError}
    ensures o.reply.status != StatusOK ==> o.db == db
    ensures o.reply.status == StatusBadRequest <==> ViewId(PathId(path)) == ""
    ensures o.reply.status == StatusOK ==>
      && o.reply == Mensagem(StatusOK, ViewRecorded)
      && ObjectIdFromHex(ViewId(PathId(path))).Success?
      && var id := ObjectIdFromHex(ViewId(PathId(path))).value;
      && (exists j :: j in db.jobs && j.id == id)
      && o.db == db.(jobs := o.db.jobs)
      && |o.db.jobs| == |db.jobs|
      && (UniqueIds(db.jobs, IdOf) ==> forall k :: 0 <= k < |db.jobs| ==>
            o.db.jobs[k] == (if db.jobs[k].id == id then db.jobs[k].(views := db.jobs[k].views + 1) else db.jobs[k]))
  {
    var id := ViewId(PathId(path));
    if id == "" then Outcome(Erro(StatusBadRequest, MissingId), db)
    else match JobsStore.GetById(db.jobs, id, env.faults)
      case Failure(_) => Outcome(Erro(StatusNotFound, JobNotFound), db)
      case Success(_) =>
        match IncrementViews(db.jobs, id, env.faults)
        case Failure(_) => Outcome(Erro(StatusInternalServerError, ViewFailed), db)
        case Success(jobs) =>
          IncrementViewsOnly(db.jobs, id, env.faults);
          Outcome(Mensagem(StatusOK, ViewRecorded), db.(jobs := jobs))
  }
}
