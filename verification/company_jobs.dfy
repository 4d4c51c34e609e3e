/** internal/http/handlers/company_jobs.go: a company publishes and manages
    its own jobs. The caller is the company id the middleware put in the
    request context; every change to an existing job first checks that the
    job's `company_id` is the caller. */
module CompanyJobHandlers {
  import opened Wrappers
  import opened Store
  import opened Http
  import opened Db
  import opened JobsStore
  import Strings
  import Companies
  import JobHandlers

  const InvalidData: string := "Dados inválidos"
  const MissingFields: string := "Campos obrigatórios: title, description, location"
  const CompanyLookupFailed: string := "Erro ao buscar dados da empresa"
  const CreateFailed: string := "Erro ao criar vaga"
  const Created: string := "Vaga criada com sucesso"
  const ListFailed: string := "Erro ao buscar vagas"
  const MissingJobId: string := "ID da vaga não fornecido"
  const JobNotFound: string := "Vaga não encontrada"
  const NotYoursToEdit: string := "Você não tem permissão para editar esta vaga"
  const UpdateFailed: string := "Erro ao atualizar vaga"
  const Updated: string := "Vaga atualizada com sucesso"
  const NotYoursToDelete: string := "Você não tem permissão para deletar esta vaga"
  const DeleteFailed: string := "Erro ao deletar vaga"
  const Deleted: string := "Vaga deletada com sucesso"
  const NotYoursToDeactivate: string := "Você não tem permissão para desativar esta vaga"
  const DeactivateFailed: string := "Erro ao desativar vaga"
  const Deactivated: string := "Vaga desativada com sucesso"
  const NotYoursToActivate: string := "Você não tem permissão para ativar esta vaga"
  const ActivateFailed: string := "Erro ao ativar vaga"
  const Activated: string := "Vaga ativada com sucesso"

  const CompanyJobsPrefix: string := "/company/jobs/"
  const DeactivateSuffix: string := "/deactivate"
  const ActivateSuffix: string := "/activate"

  /** The fields a company must fill in; the company name comes from its record. */
  predicate HasRequiredFields(j: Job) {
    j.title != "" && j.description != "" && j.location != ""
  }

  /** The path segment after "/company/jobs/". */
  function PathId(path: string): (id: string)
    requires |path| >= |CompanyJobsPrefix|
    ensures path == path[..|CompanyJobsPrefix|] + id
  {
    path[|CompanyJobsPrefix|..]
  }

  // ----- Create -----

  /** `Create`: the job is stamped with the caller as owner, the caller's
      registered name as company, and made active, whatever the body said. */
  function Create(db: Db, env: Env, caller: string, req: Option<Job>): (o: Outcome<JobHandlers.JobBody>)
    ensures o.reply.status in {StatusCreated, StatusBadRequest, StatusInternalServerError}
    ensures o.reply.status != StatusCreated ==> o.db == db
    ensures o.reply.status == StatusBadRequest <==> req.None? || !HasRequiredFields(req.value)
    ensures o.reply.status == StatusCreated ==>
      && req.Some? && HasRequiredFields(req.value) && ObjectIdFromHex(caller).Success?
      && |o.db.jobs| == |db.jobs| + 1
      && var stored := o.db.jobs[|db.jobs|];
      && o.db == db.(jobs := db.jobs + [stored])
      && o.reply.body == Data(JobHandlers.JobBody(Created, stored))
      && stored.id == env.freshId && stored.isActive
      && stored.companyId == ObjectIdFromHex(caller).value
      && (exists c :: c in db.companies && c.id == stored.companyId && c.name == stored.company)
      && stored.createdAt == env.now && stored.updatedAt == env.now
      && stored.(id := req.value.id, companyId := req.value.companyId, company := req.value.company,
                 isActive := req.value.isActive, createdAt := req.value.createdAt, updatedAt := req.value.updatedAt) == req.value
  {
    match req
    case None => Outcome(Erro(StatusBadRequest, InvalidData), db)
    case Some(body) =>
      if !HasRequiredFields(body) then Outcome(Erro(StatusBadRequest, MissingFields), db)
      else match Companies.GetById(db.companies, caller, env.faults)
        case Failure(_) => Outcome(Erro(StatusInternalServerError, CompanyLookupFailed), db)
        case Success(company) =>
          var job := body.(companyId := HexOrNil(caller), company := company.name, isActive := true);
          match JobsStore.Create(db.jobs, job, env.freshId, env.now, env.faults)
          case Failure(_) => Outcome(Erro(StatusInternalServerError, CreateFailed), db)
          case Success((jobs, stored)) => Outcome(Ok(StatusCreated, JobHandlers.JobBody(Created, stored)), db.(jobs := jobs))
  }

  // ----- ListMine -----

  /** `ListMine`: the caller's jobs. */
  function ListMine(db: Db, env: Env, caller: string): (r: Reply<seq<Job>>)
    ensures r.status in {StatusOK, StatusInternalServerError}
    ensures r.status == StatusOK <==> JobsByCompany !in env.faults
    ensures r.status == StatusOK ==> r.body.Data? && forall j :: j in r.body.value <==> j in db.jobs && j.companyId == HexOrNil(caller)
  {
    match GetByCompanyId(db.jobs, HexOrNil(caller), env.faults)
    case Failure(_) => Erro(StatusInternalServerError, ListFailed)
    case Success(js) => Ok(StatusOK, js)
  }

  /** The jobs a company just created are among those it lists. */
  lemma CreatedJobIsListed(db: Db, env: Env, caller: string, req: Option<Job>)
    requires IsObjectId(caller) && JobsByCompany !in env.faults
    requires Create(db, env, caller, req).reply.status == StatusCreated
    ensures var o := Create(db, env, caller, req);
      && ListMine(o.db, env, caller).status == StatusOK
      && o.reply.body.value.vaga in ListMine(o.db, env, caller).body.value
  {
    ObjectIdFromHexCanonical(caller);
    var o := Create(db, env, caller, req);
    assert o.db.jobs[|db.jobs|] in o.db.jobs;
  }

  // ----- ownership -----

  /** Looks up the job with this id and refuses it, with `refusal`, unless
      it belongs to the caller. */
  function FindOwned<T>(db: Db, env: Env, caller: string, id: string, refusal: string): (r: Result<Job, Reply<T>>)
    ensures r.Success? ==>
      && ObjectIdFromHex(id).Success?
      && r.value in db.jobs && r.value.id == ObjectIdFromHex(id).value && r.value.companyId == caller
    ensures r.Failure? ==> r.error == Erro(StatusNotFound, JobNotFound) || r.error == Erro(StatusForbidden, refusal)
    ensures r.Failure? && r.error.status == StatusForbidden ==>
      && ObjectIdFromHex(id).Success?
      && exists j :: j in db.jobs && j.id == ObjectIdFromHex(id).value && j.companyId != caller
    ensures ObjectIdFromHex(id).Success? && JobById !in env.faults && UniqueIds(db.jobs, IdOf) ==>
      forall j :: j in db.jobs && j.id == ObjectIdFromHex(id).value ==>
        (r.Success? <==> j.companyId == caller) && (r.Failure? ==> r.error.status == StatusForbidden)
  {
    match JobsStore.GetById(db.jobs, id, env.faults)
    case Failure(_) => Failure(Erro(StatusNotFound, JobNotFound))
    case Success(job) =>
      if job.companyId != caller then Failure(Erro(StatusForbidden, refusal)) else Success(job)
  }

  // ----- Update -----

  /** `Update`: the body replaces the caller's job, except that id, owner,
      company name and creation time stay those of the stored job. */
  function Update(db: Db, env: Env, caller: string, path: string, req: Option<Job>): (o: Outcome<JobHandlers.JobBody>)
    requires |path| >= |CompanyJobsPrefix|
    ensures o.reply.status in {StatusOK, StatusBadRequest, StatusNotFound, StatusForbidden, StatusInternalServerError}
    ensures o.reply.status != StatusOK ==> o.db == db
    ensures o.reply.status == StatusForbidden ==> o.reply == Erro(StatusForbidden, NotYoursToEdit)
    ensures o.reply.status == StatusOK ==>
      && req.Some? && ObjectIdFromHex(PathId(path)).Success?
      && exists prior :: prior in db.jobs && prior.id == ObjectIdFromHex(PathId(path)).value && prior.companyId == caller
           && var stored := req.value.(id := prior.id, companyId := prior.companyId, company := prior.company,
                                       createdAt := prior.createdAt, updatedAt := env.now);
           && o.reply.body == Data(JobHandlers.JobBody(Updated, stored))
           && o.db == db.(jobs := Replace(db.jobs, IdOf, stored))
  {
    var id := PathId(path);
    if id == "" then Outcome(Erro(StatusBadRequest, MissingJobId), db)
    else match FindOwned(db, env, caller, id, NotYoursToEdit)
      case Failure(refused) => Outcome(refused, db)
      case Success(existing) =>
        match req
        case None => Outcome(Erro(StatusBadRequest, InvalidData), db)
        case Some(body) =>
          var job := body.(id := existing.id, companyId := existing.companyId, company := existing.company, createdAt := existing.createdAt);
          match JobsStore.Update(db.jobs, job, env.now, env.faults)
          case Failure(_) => Outcome(Erro(StatusInternalServerError, UpdateFailed), db)
          case Success(jobs) => Outcome(Ok(StatusOK, JobHandlers.JobBody(Updated, job.(updatedAt := env.now))), db.(jobs := jobs))
  }

  /** `Update` keeps every job's id, owner, company name and creation time,
      and leaves the jobs of other companies exactly as they were. */
  lemma UpdateKeepsOwnership(db: Db, env: Env, caller: string, path: string, req: Option<Job>)
    requires |path| >= |CompanyJobsPrefix|
    ensures var o := Update(db, env, caller, path, req);
      && |o.db.jobs| == |db.jobs|
      && forall k :: 0 <= k < |db.jobs| ==>
           && o.db.jobs[k].id == db.jobs[k].id
           && o.db.jobs[k].companyId == db.jobs[k].companyId
           && o.db.jobs[k].company == db.jobs[k].company
           && o.db.jobs[k].createdAt == db.jobs[k].createdAt
           && (db.jobs[k].companyId != caller ==> o.db.jobs[k] == db.jobs[k])
  {
    var o := Update(db, env, caller, path, req);
    if o.reply.status == StatusOK {
      var existing := JobsStore.GetById(db.jobs, PathId(path), env.faults).value;
      var stored := req.value.(id := existing.id, companyId := existing.companyId, company := existing.company,
                               createdAt := existing.createdAt, updatedAt := env.now);
      assert o.db.jobs == Replace(db.jobs, IdOf, stored);
      assert FindById(db.jobs, IdOf, stored.id) == Success(existing);
      assert existing.companyId == caller;
      ReplaceKeepsOwnership(db.jobs, existing, stored, caller);
    }
  }

  /** Replacing the first job with an id by one that keeps its identity,
      owner, company name and creation time changes nothing else. */
  lemma ReplaceKeepsOwnership(jobs: seq<Job>, prior: Job, stored: Job, caller: string)
    requires FindById(jobs, IdOf, stored.id) == Success(prior) && prior.companyId == caller
    requires stored.id == prior.id && stored.companyId == prior.companyId
    requires stored.company == prior.company && stored.createdAt == prior.createdAt
    ensures var r := Replace(jobs, IdOf, stored);
      && |r| == |jobs|
      && forall k :: 0 <= k < |jobs| ==>
           && r[k].id == jobs[k].id
           && r[k].companyId == jobs[k].companyId
           && r[k].company == jobs[k].company
           && r[k].createdAt == jobs[k].createdAt
           && (jobs[k].companyId != caller ==> r[k] == jobs[k])
  {
    ReplaceChangesFound(jobs, IdOf, stored);
  }

  // ----- Delete -----

  /** `Delete`: only the owner may remove a job. */
  function Delete(db: Db, env: Env, caller: string, path: string): (o: Outcome<()>)
    requires |path| >= |CompanyJobsPrefix|
    ensures o.reply.status in {StatusOK, StatusBadRequest, StatusNotFound, StatusForbidden, StatusInternalServerError}
    ensures o.reply.status != StatusOK ==> o.db == db
    ensures o.reply.status == StatusForbidden ==> o.reply == Erro(StatusForbidden, NotYoursToDelete)
    ensures o.reply.status == StatusOK ==>
      && o.reply == Mensagem(StatusOK, Deleted)
      && ObjectIdFromHex(PathId(path)).Success?
      && var id := ObjectIdFromHex(PathId(path)).value;
      && (exists j :: j in db.jobs && j.id == id && j.companyId == caller)
      && o.db == db.(jobs := o.db.jobs)
      && (UniqueIds(db.jobs, IdOf) ==> forall j :: j in o.db.jobs <==> j in db.jobs && j.id != id)
  {
    var id := PathId(path);
    if id == "" then Outcome(Erro(StatusBadRequest, MissingJobId), db)
    else match FindOwned(db, env, caller, id, NotYoursToDelete)
      case Failure(refused) => Outcome(refused, db)
      case Success(_) =>
        match JobsStore.Delete(db.jobs, id, env.faults)
        case Failure(_) => Outcome(Erro(StatusInternalServerError, DeleteFailed), db)
        case Success(jobs) => Outcome(Mensagem(StatusOK, Deleted), db.(jobs := jobs))
  }

  /** A company never deletes another company's job. */
  lemma DeleteSparesOthers(db: Db, env: Env, caller: string, path: string, j: Job)
    requires |path| >= |CompanyJobsPrefix|
    requires UniqueIds(db.jobs, IdOf)
    requires j in db.jobs && j.companyId != caller
    ensures j in Delete(db, env, caller, path).db.jobs
  {
  }

  /** A job a company has just created cannot be deleted by any other company. */
  lemma CreatedJobRefusesOthers(db: Db, env: Env, caller: string, req: Option<Job>, other: string)
    requires IsObjectId(caller) && IsObjectId(env.freshId) && other != caller
    requires JobById !in env.faults
    requires Create(db, env, caller, req).reply.status == StatusCreated
    ensures Delete(Create(db, env, caller, req).db, env, other, CompanyJobsPrefix + env.freshId).reply
         == Erro(StatusForbidden, NotYoursToDelete)
  {
    ObjectIdFromHexCanonical(caller);
    var body := req.value;
    var company := Companies.GetById(db.companies, caller, env.faults).value;
    var job := body.(companyId := HexOrNil(caller), company := company.name, isActive := true);
    JobsStore.CreateThenGet(db.jobs, job, env.freshId, env.now, env.faults);
    assert PathId(CompanyJobsPrefix + env.freshId) == env.freshId;
  }

  // ----- Deactivate / Activate -----

  /** The id of "/company/jobs/{id}{suffix}": the suffix is dropped from the
      end only when something precedes it. */
  function StripTrailing(rest: string, suffix: string): (id: string)
    ensures id == rest || (rest == id + suffix && id != "")
    ensures Strings.HasSuffix(rest, suffix) && |rest| > |suffix| ==> rest == id + suffix
  {
    if |rest| > |suffix| && rest[|rest| - |suffix|..] == suffix then rest[..|rest| - |suffix|] else rest
  }

  /** The suffixed form names the same job as the bare id. */
  lemma StripTrailingRecovers(id: string, suffix: string)
    ensures id != "" ==> StripTrailing(id + suffix, suffix) == id
    ensures !Strings.HasSuffix(id, suffix) ==> StripTrailing(id, suffix) == id
  {
    if id != "" {
      assert (id + suffix)[|id|..] == suffix;
    }
  }

  /** Sets `isActive` on one of the caller's jobs; shared by `Deactivate`
      and `Activate`. An empty id is not refused up front: the lookup fails
      and the reply is 404. */
  function SetActive(db: Db, env: Env, caller: string, id: string, active: bool, refusal: string, failed: string, done: string): (o: Outcome<JobHandlers.JobBody>)
    ensures o.reply.status in {StatusOK, StatusNotFound, StatusForbidden, StatusInternalServerError}
    ensures o.reply.status != StatusOK ==> o.db == db
    ensures id == "" ==> o.reply == Erro(StatusNotFound, JobNotFound)
    ensures o.reply.status == StatusForbidden ==> o.reply == Erro(StatusForbidden, refusal)
    ensures o.reply.status == StatusOK ==>
      && ObjectIdFromHex(id).Success?
      && exists prior :: prior in db.jobs && prior.id == ObjectIdFromHex(id).value && prior.companyId == caller
           && var stored := prior.(isActive := active, updatedAt := env.now);
           && o.reply.body == Data(JobHandlers.JobBody(done, stored))
           && o.db == db.(jobs := Replace(db.jobs, IdOf, stored))
  {
    match FindOwned(db, env, caller, id, refusal)
    case Failure(refused) => Outcome(refused, db)
    case Success(job) =>
      var job' := job.(isActive := active);
      match JobsStore.Update(db.jobs, job', env.now, env.faults)
      case Failure(_) => Outcome(Erro(StatusInternalServerError, failed), db)
      case Success(jobs) => Outcome(Ok(StatusOK, JobHandlers.JobBody(done, job'.(updatedAt := env.now))), db.(jobs := jobs))
  }

  /** `Deactivate`: accepts "/company/jobs/{id}" and "/company/jobs/{id}/deactivate". */
  function Deactivate(db: Db, env: Env, caller: string, path: string): (o: Outcome<JobHandlers.JobBody>)
    requires |path| >= |CompanyJobsPrefix|
    ensures o.reply.status in {StatusOK, StatusNotFound, StatusForbidden, StatusInternalServerError}
    ensures o.reply.status != StatusOK ==> o.db == db
    ensures o.reply.status == StatusOK ==>
      && ObjectIdFromHex(StripTrailing(PathId(path), DeactivateSuffix)).Success?
      && exists prior :: prior in db.jobs && prior.id == ObjectIdFromHex(StripTrailing(PathId(path), DeactivateSuffix)).value
           && prior.companyId == caller
           && o.reply.body == Data(JobHandlers.JobBody(Deactivated, prior.(isActive := false, updatedAt := env.now)))
           && o.db == db.(jobs := Replace(db.jobs, IdOf, prior.(isActive := false, updatedAt := env.now)))
  {
    SetActive(db, env, caller, StripTrailing(PathId(path), DeactivateSuffix), false, NotYoursToDeactivate, DeactivateFailed, Deactivated)
  }

  /** `Activate`: accepts "/company/jobs/{id}" and "/company/jobs/{id}/activate". */
  function Activate(db: Db, env: Env, caller: string, path: string): (o: Outcome<JobHandlers.JobBody>)
    requires |path| >= |CompanyJobsPrefix|
    ensures o.reply.status in {StatusOK, StatusNotFound, StatusForbidden, StatusInternalServerError}
    ensures o.reply.status != StatusOK ==> o.db == db
    ensures o.reply.status == StatusOK ==>
      && ObjectIdFromHex(StripTrailing(PathId(path), ActivateSuffix)).Success?
      && exists prior :: prior in db.jobs && prior.id == ObjectIdFromHex(StripTrailing(PathId(path), ActivateSuffix)).value
           && prior.companyId == caller
           && o.reply.body == Data(JobHandlers.JobBody(Activated, prior.(isActive := true, updatedAt := env.now)))
           && o.db == db.(jobs := Replace(db.jobs, IdOf, prior.(isActive := true, updatedAt := env.now)))
  {
    SetActive(db, env, caller, StripTrailing(PathId(path), ActivateSuffix), true, NotYoursToActivate, ActivateFailed, Activated)
  }

  /** A successful `SetActive` stores the job it found with the new state,
      where a later lookup finds it. */
  lemma SetActiveStores(db: Db, env: Env, caller: string, id: string, a: bool, r: string, f: string, d: string)
    requires IsObjectId(id) && UniqueIds(db.jobs, IdOf)
    requires env.faults == {}
    requires SetActive(db, env, caller, id, a, r, f, d).reply.status == StatusOK
    ensures JobsStore.GetById(db.jobs, id, env.faults).Success?
    ensures var prior := JobsStore.GetById(db.jobs, id, env.faults).value;
      var o := SetActive(db, env, caller, id, a, r, f, d);
      && prior.companyId == caller
      && o.db.jobs == Replace(db.jobs, IdOf, prior.(isActive := a, updatedAt := env.now))
      && JobsStore.GetById(o.db.jobs, id, env.faults) == Success(prior.(isActive := a, updatedAt := env.now))
  {
    ObjectIdFromHexCanonical(id);
    var prior := JobsStore.GetById(db.jobs, id, env.faults).value;
    JobsStore.UpdateThenGet(db.jobs, prior.(isActive := a), env.now, env.faults);
  }

  /** A string without '/' never ends in a suffix that starts with one. */
  lemma SlashFreeLacksSuffix(s: string, suffix: string)
    requires '/' !in s && |suffix| > 0 && suffix[0] == '/'
    ensures !Strings.HasSuffix(s, suffix)
  {
  }

  /** For a well-formed id, the bare path and both suffixed paths all name it. */
  lemma SuffixedPathsNameId(id: string)
    requires IsObjectId(id)
    ensures StripTrailing(PathId(CompanyJobsPrefix + id), ActivateSuffix) == id
    ensures StripTrailing(PathId(CompanyJobsPrefix + id), DeactivateSuffix) == id
    ensures StripTrailing(PathId(CompanyJobsPrefix + id + ActivateSuffix), ActivateSuffix) == id
    ensures StripTrailing(PathId(CompanyJobsPrefix + id + DeactivateSuffix), DeactivateSuffix) == id
  {
    assert PathId(CompanyJobsPrefix + id) == id;
    assert PathId(CompanyJobsPrefix + id + ActivateSuffix) == id + ActivateSuffix;
    assert PathId(CompanyJobsPrefix + id + DeactivateSuffix) == id + DeactivateSuffix;
    ObjectIdHasNoSlash(id);
    SlashFreeLacksSuffix(id, ActivateSuffix);
    SlashFreeLacksSuffix(id, DeactivateSuffix);
    StripTrailingRecovers(id, ActivateSuffix);
    StripTrailingRecovers(id, DeactivateSuffix);
  }

  /** A second `SetActive` on the same id overrides the first: the store ends
      as if only the second had run. */
  lemma SetActiveTwice(db: Db, env: Env, caller: string, id: string, a: bool, b: bool,
                       r1: string, f1: string, d1: string, r2: string, f2: string, d2: string)
    requires IsObjectId(id) && UniqueIds(db.jobs, IdOf)
    requires env.faults == {}
    requires SetActive(db, env, caller, id, a, r1, f1, d1).reply.status == StatusOK
    ensures var mid := SetActive(db, env, caller, id, a, r1, f1, d1).db;
      && SetActive(mid, env, caller, id, b, r2, f2, d2).reply.status == StatusOK
      && SetActive(mid, env, caller, id, b, r2, f2, d2).db == SetActive(db, env, caller, id, b, r2, f2, d2).db
  {
    SetActiveStores(db, env, caller, id, a, r1, f1, d1);
    var prior := JobsStore.GetById(db.jobs, id, env.faults).value;
    ReplaceTwice(db.jobs, IdOf, prior.(isActive := a, updatedAt := env.now), prior.(isActive := b, updatedAt := env.now));
  }

  /** Activating a job right after deactivating it leaves the store exactly as
      activating it alone would have; "/deactivate" and the bare id name the
      same job. */
  lemma DeactivateThenActivate(db: Db, env: Env, caller: string, id: string)
    requires IsObjectId(id) && UniqueIds(db.jobs, IdOf)
    requires env.faults == {}
    requires Deactivate(db, env, caller, CompanyJobsPrefix + id + DeactivateSuffix).reply.status == StatusOK
    ensures var mid := Deactivate(db, env, caller, CompanyJobsPrefix + id + DeactivateSuffix).db;
      && Activate(mid, env, caller, CompanyJobsPrefix + id).reply.status == StatusOK
      && Activate(mid, env, caller, CompanyJobsPrefix + id).db == Activate(db, env, caller, CompanyJobsPrefix + id).db
  {
    SuffixedPathsNameId(id);
    SetActiveTwice(db, env, caller, id, false, true,
      NotYoursToDeactivate, DeactivateFailed, Deactivated, NotYoursToActivate, ActivateFailed, Activated);
  }
}
