/** internal/http/handlers/applications.go: a candidate applies to a job and
    may withdraw while the application is still pending; the job's company
    lists the applicants and moves applications through their statuses. The
    caller's id is the `user_id` the authentication middleware put in the
    request context. */
module ApplicationHandlers {
  import opened Wrappers
  import opened Store
  import opened Http
  import opened Db
  import opened ApplicationsStore
  import Strings
  import Collections
  import JobsStore
  import Candidates

  const InvalidData: string := "Dados inválidos"
  const MissingJobId: string := "job_id é obrigatório"
  const JobNotFound: string := "Vaga não encontrada"
  const JobInactive: string := "Esta vaga não está mais ativa"
  const CheckFailed: string := "Erro ao verificar candidatura"
  const AlreadyApplied: string := "Você já se candidatou a esta vaga"
  const CreateFailed: string := "Erro ao criar candidatura"
  const Applied: string := "Candidatura realizada com sucesso"
  const ListFailed: string := "Erro ao buscar candidaturas"
  const MissingApplicationId: string := "ID da candidatura não fornecido"
  const ApplicationNotFound: string := "Candidatura não encontrada"
  const NotYours: string := "Você não pode cancelar esta candidatura"
  const NotPending: string := "Não é possível cancelar candidatura com status alterado pela empresa"
  const CancelFailed: string := "Erro ao cancelar candidatura"
  const Cancelled: string := "Candidatura cancelada com sucesso"
  const NotYourJob: string := "Você não tem permissão para ver candidatos desta vaga"
  const ApplicantsFailed: string := "Erro ao buscar candidatos"
  const BadUrl: string := "URL inválida"
  const BadApplicationId: string := "ID da candidatura inválido"
  const BadStatus: string := "Status inválido"
  const NotYourApplication: string := "Você não tem permissão para atualizar esta candidatura"
  const UpdateFailed: string := "Erro ao atualizar status"
  const StatusUpdated: string := "Status atualizado com sucesso"

  const CancelPrefix: string := "/candidate/applications/"
  const JobsPrefix: string := "/company/jobs/"
  const ApplicantsSuffixLength: nat := 11
  const StatusPrefix: string := "/company/applications/"
  const StatusSuffix: string := "/status"
  const Viewed: string := "viewed"

  /** The statuses a company may set. */
  const ValidStatuses: set<string> := {"pending", "viewed", "in_review", "shortlisted", "interview", "rejected", "accepted"}

  datatype ApplyRequest = ApplyRequest(jobId: string, message: string)

  /** `{"mensagem", "candidatura"}`. */
  datatype AppliedBody = AppliedBody(mensagem: string, candidatura: Application)

  /** One entry of `candidatos`. */
  datatype Applicant = Applicant(application: Application, candidate: Candidates.Candidate)

  /** `{"vaga", "candidatos"}`; `vaga.applicants` is replaced by the number of entries. */
  datatype ApplicantsBody = ApplicantsBody(vaga: JobsStore.Job, candidatos: seq<Applicant>)

  /** At most one application per (job, candidate): what `Apply`'s duplicate
      check sets out to keep, together with unique ids. */
  predicate OnePerPair(s: seq<Application>) {
    && UniqueIds(s, IdOf)
    && forall i, j :: 0 <= i < j < |s| ==> !(s[i].jobId == s[j].jobId && s[i].candidateId == s[j].candidateId)
  }

  // ----- Apply -----

  /** `Apply`: the job must exist and be active, the caller must not have
      applied yet; the application takes the job's company, and a failed
      applicant-counter increment does not fail the request. */
  function Apply(db: Db, env: Env, caller: string, req: Option<ApplyRequest>): (o: Outcome<AppliedBody>)
    ensures o.reply.status in {StatusCreated, StatusBadRequest, StatusNotFound, StatusConflict, StatusInternalServerError}
    ensures o.reply.status != StatusCreated ==> o.db == db
    ensures o.reply.status == StatusNotFound ==> o.reply == Erro(StatusNotFound, JobNotFound)
    ensures o.reply.status == StatusConflict ==>
      && o.reply == Erro(StatusConflict, AlreadyApplied)
      && req.Some? && ObjectIdFromHex(req.value.jobId).Success? && ObjectIdFromHex(caller).Success?
      && exists a :: a in db.applications && a.jobId == ObjectIdFromHex(req.value.jobId).value && a.candidateId == ObjectIdFromHex(caller).value
    ensures o.reply.status == StatusCreated ==>
      && req.Some? && ObjectIdFromHex(req.value.jobId).Success? && ObjectIdFromHex(caller).Success?
      && var jobId := ObjectIdFromHex(req.value.jobId).value;
      && var candidateId := ObjectIdFromHex(caller).value;
      && (forall a :: a in db.applications ==> !(a.jobId == jobId && a.candidateId == candidateId))
      && |o.db.applications| == |db.applications| + 1
      && o.db == db.(applications := o.db.applications, jobs := o.db.jobs)
      && var stored := o.db.applications[|db.applications|];
      && o.db.applications == db.applications + [stored]
      && o.reply.body == Data(AppliedBody(Applied, stored))
      && stored.id == env.freshId && stored.status == Pending && stored.viewedAt.None?
      && stored.jobId == jobId && stored.candidateId == candidateId && stored.message == req.value.message
      && (exists j :: j in db.jobs && j.id == jobId && j.isActive && stored.companyId == j.companyId)
      && o.db.jobs == IgnoreError(JobsStore.IncrementApplicants(db.jobs, req.value.jobId, env.faults), db.jobs)
  {
    match req
    case None => Outcome(Erro(StatusBadRequest, InvalidData), db)
    case Some(q) =>
      if q.jobId == "" then Outcome(Erro(StatusBadRequest, MissingJobId), db)
      else match JobsStore.GetById(db.jobs, q.jobId, env.faults)
        case Failure(_) => Outcome(Erro(StatusNotFound, JobNotFound), db)
        case Success(job) =>
          if !job.isActive then Outcome(Erro(StatusBadRequest, JobInactive), db)
          else match ExistsByJobAndCandidate(db.applications, q.jobId, caller, env.faults)
            case Failure(_) => Outcome(Erro(StatusInternalServerError, CheckFailed), db)
            case Success(applied) =>
              if applied then Outcome(Erro(StatusConflict, AlreadyApplied), db)
              else
                var draft := Application("", HexOrNil(caller), HexOrNil(q.jobId), job.companyId, "", q.message, 0, None, 0);
                match Create(db.applications, draft, env.freshId, env.now, env.faults)
                case Failure(_) => Outcome(Erro(StatusInternalServerError, CreateFailed), db)
                case Success((apps, stored)) =>
                  var jobs := IgnoreError(JobsStore.IncrementApplicants(db.jobs, q.jobId, env.faults), db.jobs);
                  Outcome(Ok(StatusCreated, AppliedBody(Applied, stored)), db.(applications := apps, jobs := jobs))
  }

  /** Appending an application for a pair nobody holds keeps one application per pair. */
  lemma AppendFreshPair(s: seq<Application>, a: Application)
    requires OnePerPair(s)
    requires forall k :: 0 <= k < |s| ==> s[k].id != a.id
    requires forall x :: x in s ==> !(x.jobId == a.jobId && x.candidateId == a.candidateId)
    ensures OnePerPair(s + [a])
  {
    var r := s + [a];
    forall i, j | 0 <= i < j < |r|
      ensures !(r[i].jobId == r[j].jobId && r[i].candidateId == r[j].candidateId)
    {
      if j == |s| {
        assert r[i] in s;
      }
    }
  }

  /** `Apply` never lets a candidate hold two applications to one job, whatever fails. */
  lemma ApplyKeepsOnePerPair(db: Db, env: Env, caller: string, req: Option<ApplyRequest>)
    requires OnePerPair(db.applications)
    ensures OnePerPair(Apply(db, env, caller, req).db.applications)
  {
    var o := Apply(db, env, caller, req);
    if o.reply.status == StatusCreated {
      var stored := o.db.applications[|db.applications|];
      assert Create(db.applications, stored, env.freshId, env.now, env.faults).Success?;
      AppendFreshPair(db.applications, stored);
    }
  }

  /** An active job the caller has not applied to yet is applied to whenever the
      store cooperates, even when the applicant counter cannot be bumped; then
      the jobs stay as they were. */
  lemma ApplySucceedsWhenFree(db: Db, env: Env, caller: string, q: ApplyRequest)
    requires env.faults <= {JobIncApplicants}
    requires IsObjectId(caller) && IsObjectId(q.jobId)
    requires exists j :: j in db.jobs && j.id == q.jobId
    requires forall j :: j in db.jobs && j.id == q.jobId ==> j.isActive
    requires forall a :: a in db.applications ==> !(a.jobId == q.jobId && a.candidateId == caller)
    requires forall a :: a in db.applications ==> a.id != env.freshId
    ensures Apply(db, env, caller, Some(q)).reply.status == StatusCreated
    ensures JobIncApplicants in env.faults ==> Apply(db, env, caller, Some(q)).db.jobs == db.jobs
  {
    ObjectIdFromHexCanonical(caller);
    ObjectIdFromHexCanonical(q.jobId);
    var j :| j in db.jobs && j.id == q.jobId;
    var job := JobsStore.GetById(db.jobs, q.jobId, env.faults);
    assert job.Success? && job.value.isActive;
    assert ExistsByJobAndCandidate(db.applications, q.jobId, caller, env.faults) == Success(false);
    forall i | 0 <= i < |db.applications| ensures db.applications[i].id != env.freshId {
      assert db.applications[i] in db.applications;
    }
    var draft := Application("", HexOrNil(caller), HexOrNil(q.jobId), job.value.companyId, "", q.message, 0, None, 0);
    assert Create(db.applications, draft, env.freshId, env.now, env.faults).Success?;
  }

  // ----- ListMine -----

  /** `ListMine`: the caller's applications. */
  function ListMine(db: Db, env: Env, caller: string): (r: Reply<seq<Application>>)
    ensures r.status in {StatusOK, StatusInternalServerError}
    ensures r.status == StatusOK <==> ObjectIdFromHex(caller).Success? && ApplicationsByCandidate !in env.faults
    ensures r.status == StatusOK ==>
      r.body.Data? && forall a :: a in r.body.value <==> a in db.applications && a.candidateId == ObjectIdFromHex(caller).value
  {
    match GetByCandidateId(db.applications, caller, env.faults)
    case Failure(_) => Erro(StatusInternalServerError, ListFailed)
    case Success(apps) => Ok(StatusOK, apps)
  }

  // ----- Cancel -----

  /** `Cancel`: the id is everything after "/candidate/applications/"; only the
      owner may withdraw, and only while the company has not moved the
      application on. The applicant counter is decremented best-effort. */
  function Cancel(db: Db, env: Env, caller: string, path: string): (o: Outcome<()>)
    requires |path| >= |CancelPrefix|
    ensures o.reply.status in {StatusOK, StatusBadRequest, StatusNotFound, StatusForbidden, StatusInternalServerError}
    ensures o.reply.status != StatusOK ==> o.db == db
    ensures o.reply.status == StatusForbidden ==>
      && o.reply == Erro(StatusForbidden, NotYours)
      && ObjectIdFromHex(path[|CancelPrefix|..]).Success?
      && exists a :: a in db.applications && a.id == ObjectIdFromHex(path[|CancelPrefix|..]).value && a.candidateId != caller
    ensures o.reply.status == StatusOK ==>
      && o.reply == Mensagem(StatusOK, Cancelled)
      && ObjectIdFromHex(path[|CancelPrefix|..]).Success?
      && var id := ObjectIdFromHex(path[|CancelPrefix|..]).value;
      && (exists a :: a in db.applications && a.id == id && a.candidateId == caller && a.status == Pending
            && o.db.jobs == IgnoreError(JobsStore.DecrementApplicants(db.jobs, a.jobId, env.faults), db.jobs))
      && o.db == db.(applications := o.db.applications, jobs := o.db.jobs)
      && (UniqueIds(db.applications, IdOf) ==> forall a :: a in o.db.applications <==> a in db.applications && a.id != id)
  {
    var appId := path[|CancelPrefix|..];
    if appId == "" then Outcome(Erro(StatusBadRequest, MissingApplicationId), db)
    else match GetById(db.applications, appId, env.faults)
      case Failure(_) => Outcome(Erro(StatusNotFound, ApplicationNotFound), db)
      case Success(app) =>
        if app.candidateId != caller then Outcome(Erro(StatusForbidden, NotYours), db)
        else if app.status != Pending then Outcome(Erro(StatusBadRequest, NotPending), db)
        else match Delete(db.applications, appId, env.faults)
          case Failure(_) => Outcome(Erro(StatusInternalServerError, CancelFailed), db)
          case Success(apps) =>
            var jobs := IgnoreError(JobsStore.DecrementApplicants(db.jobs, app.jobId, env.faults), db.jobs);
            Outcome(Mensagem(StatusOK, Cancelled), db.(applications := apps, jobs := jobs))
  }

  /** Dropping entries by membership keeps one application per pair. */
  lemma SubsetKeepsOnePerPair(s: seq<Application>, r: seq<Application>)
    requires OnePerPair(s) && UniqueIds(r, IdOf)
    requires forall a :: a in r ==> a in s
    ensures OnePerPair(r)
  {
    forall i, j | 0 <= i < j < |r|
      ensures !(r[i].jobId == r[j].jobId && r[i].candidateId == r[j].candidateId)
    {
      assert r[i] in s && r[j] in s;
      var i' :| 0 <= i' < |s| && s[i'] == r[i];
      var j' :| 0 <= j' < |s| && s[j'] == r[j];
      assert r[i].id != r[j].id;
      assert i' != j';
    }
  }

  lemma CancelKeepsOnePerPair(db: Db, env: Env, caller: string, path: string)
    requires |path| >= |CancelPrefix|
    requires OnePerPair(db.applications)
    ensures OnePerPair(Cancel(db, env, caller, path).db.applications)
  {
    var o := Cancel(db, env, caller, path);
    if o.reply.status == StatusOK {
      var r := Delete(db.applications, path[|CancelPrefix|..], env.faults);
      assert r.Success? && o.db.applications == r.value;
      SubsetKeepsOnePerPair(db.applications, o.db.applications);
    }
  }

  // ----- ListJobApplicants -----

  /** Whether the candidate of this application can be loaded. */
  predicate Loadable(cands: seq<Candidates.Candidate>, faults: set<Call>, a: Application) {
    Candidates.GetById(cands, a.candidateId, faults).Success?
  }

  function LoadableIn(cands: seq<Candidates.Candidate>, faults: set<Call>): Application -> bool {
    a => Loadable(cands, faults, a)
  }

  /** The applications whose candidate loads, paired with that candidate, in order. */
  function Applicants(apps: seq<Application>, cands: seq<Candidates.Candidate>, faults: set<Call>): (r: seq<Applicant>)
    ensures |r| == |Collections.Filter(apps, LoadableIn(cands, faults))|
    ensures forall k :: 0 <= k < |r| ==>
      && r[k].application in apps
      && Candidates.GetById(cands, r[k].application.candidateId, faults) == Success(r[k].candidate)
    decreases |apps|
  {
    if |apps| == 0 then []
    else
      var last := apps[|apps| - 1];
      var init := apps[..|apps| - 1];
      var rest := Applicants(init, cands, faults);
      assert |Collections.Filter(apps, LoadableIn(cands, faults))|
          == |Collections.Filter(init, LoadableIn(cands, faults))| + (if Loadable(cands, faults, last) then 1 else 0) by {
        assert apps == init + [last];
        Collections.FilterSnoc(init, last, LoadableIn(cands, faults));
      }
      match Candidates.GetById(cands, last.candidateId, faults)
      case Success(c) => rest + [Applicant(last, c)]
      case Failure(_) => rest
  }

  /** `x` lists application `a` with the candidate its lookup returns. */
  predicate Listed(cands: seq<Candidates.Candidate>, faults: set<Call>, x: Applicant, a: Application) {
    x.application == a && Candidates.GetById(cands, a.candidateId, faults) == Success(x.candidate)
  }

  function ListedIn(cands: seq<Candidates.Candidate>, faults: set<Call>): (Applicant, Application) -> bool {
    (x, a) => Listed(cands, faults, x, a)
  }

  /** The applicants are exactly the applications whose candidate loads, in
      store order and each once, each paired with its candidate. */
  lemma {:induction false} ApplicantsAreLoadable(apps: seq<Application>, cands: seq<Candidates.Candidate>, faults: set<Call>)
    ensures Collections.Pairwise(Applicants(apps, cands, faults), Collections.Filter(apps, LoadableIn(cands, faults)), ListedIn(cands, faults))
    decreases |apps|
  {
    if |apps| > 0 {
      var init := apps[..|apps| - 1];
      var last := apps[|apps| - 1];
      ApplicantsAreLoadable(init, cands, faults);
      assert apps == init + [last];
      Collections.FilterSnocKeeps(init, last, LoadableIn(cands, faults));
      var rest, loadable := Applicants(init, cands, faults), Collections.Filter(init, LoadableIn(cands, faults));
      match Candidates.GetById(cands, last.candidateId, faults) {
        case Success(c) =>
          assert Listed(cands, faults, Applicant(last, c), last);
          Collections.PairwiseAppend(rest, loadable, [Applicant(last, c)], [last], ListedIn(cands, faults));
        case Failure(_) =>
      }
    }
  }

  /** The loop of the handler: one candidate lookup per application, appending
      the pair when the lookup succeeds. */
  method GatherApplicants(apps: seq<Application>, cands: seq<Candidates.Candidate>, faults: set<Call>)
    returns (r: seq<Applicant>)
    ensures r == Applicants(apps, cands, faults)
    ensures |r| <= |apps|
  {
    r := [];
    var i := 0;
    while i < |apps|
      invariant 0 <= i <= |apps|
      invariant r == Applicants(apps[..i], cands, faults)
    {
      assert apps[..i + 1][..i] == apps[..i];
      match Candidates.GetById(cands, apps[i].candidateId, faults) {
        case Success(c) => r := r + [Applicant(apps[i], c)];
        case Failure(_) =>
      }
      i := i + 1;
    }
    assert apps[..i] == apps;
  }

  /** The job id of "/company/jobs/{id}/applicants": the last 11 characters go
      whenever more than 11 remain, whatever they are. */
  function ApplicantsJobId(path: string): (id: string)
    requires |path| >= |JobsPrefix|
    ensures |path| > |JobsPrefix| + ApplicantsSuffixLength ==>
      id == path[|JobsPrefix|..|path| - ApplicantsSuffixLength]
    ensures Strings.HasSuffix(path, "/applicants") && |path| > |JobsPrefix| + ApplicantsSuffixLength ==>
      path == path[..|JobsPrefix|] + id + "/applicants"
    ensures |path| <= |JobsPrefix| + ApplicantsSuffixLength ==> id == path[|JobsPrefix|..]
  {
    var rest := path[|JobsPrefix|..];
    if |rest| > ApplicantsSuffixLength then rest[..|rest| - ApplicantsSuffixLength] else rest
  }

  /** `ListJobApplicants`: only the job's company may look; the reply carries
      every application whose candidate still loads, and the job's applicant
      count is the number of those. */
  function ListJobApplicants(db: Db, env: Env, caller: string, path: string): (r: Reply<ApplicantsBody>)
    requires |path| >= |JobsPrefix|
    ensures r.status in {StatusOK, StatusNotFound, StatusForbidden, StatusInternalServerError}
    ensures r.status == StatusOK ==>
      && r.body.Data?
      && ObjectIdFromHex(ApplicantsJobId(path)).Success?
      && GetByJobId(db.applications, ApplicantsJobId(path), env.faults).Success?
      && var jobId := ObjectIdFromHex(ApplicantsJobId(path)).value;
      && var body := r.body.value;
      && body.vaga.id == jobId && body.vaga.companyId == caller
      && (exists j :: j in db.jobs && j == body.vaga.(applicants := j.applicants))
      && body.vaga.applicants == |body.candidatos|
      && (forall k :: 0 <= k < |body.candidatos| ==>
            body.candidatos[k].application in db.applications && body.candidatos[k].application.jobId == jobId)
      && var loadable := Collections.Filter(GetByJobId(db.applications, ApplicantsJobId(path), env.faults).value,
                                            LoadableIn(db.candidates, env.faults));
      && |body.candidatos| == |loadable|
      && (forall k :: 0 <= k < |body.candidatos| ==>
            && body.candidatos[k].application == loadable[k]
            && Candidates.GetById(db.candidates, loadable[k].candidateId, env.faults) == Success(body.candidatos[k].candidate))
    ensures r.status == StatusForbidden ==>
      && ObjectIdFromHex(ApplicantsJobId(path)).Success?
      && exists j :: j in db.jobs && j.id == ObjectIdFromHex(ApplicantsJobId(path)).value && j.companyId != caller
  {
    var jobId := ApplicantsJobId(path);
    match JobsStore.GetById(db.jobs, jobId, env.faults)
    case Failure(_) => Erro(StatusNotFound, JobNotFound)
    case Success(job) =>
      if job.companyId != caller then Erro(StatusForbidden, NotYourJob)
      else match GetByJobId(db.applications, jobId, env.faults)
        case Failure(_) => Erro(StatusInternalServerError, ApplicantsFailed)
        case Success(apps) =>
          var applicants := Applicants(apps, db.candidates, env.faults);
          ApplicantsAreLoadable(apps, db.candidates, env.faults);
          Ok(StatusOK, ApplicantsBody(job.(applicants := |applicants|), applicants))
  }

  // ----- UpdateApplicationStatus -----

  /** The application id of "/company/applications/{id}/status": the prefix,
      then at most one "/status", are removed. */
  function StatusApplicationId(path: string): (id: string)
    requires Strings.HasPrefix(path, StatusPrefix)
    ensures Strings.HasSuffix(path, StatusSuffix) && |path| >= |StatusPrefix| + |StatusSuffix| ==>
      path == StatusPrefix + id + StatusSuffix
    ensures !Strings.HasSuffix(path, StatusSuffix) ==> path == StatusPrefix + id
  {
    Strings.TrimSuffix(Strings.TrimPrefix(path, StatusPrefix), StatusSuffix)
  }

  /** The application after the company sets `status` at `now`: "viewed" stamps
      `viewedAt` the first time only. */
  function WithStatus(a: Application, status: string, now: nat): (r: Application)
    ensures r.(status := a.status, updatedAt := a.updatedAt, viewedAt := a.viewedAt) == a
    ensures r.status == status && r.updatedAt == now
    ensures a.viewedAt.Some? ==> r.viewedAt == a.viewedAt
    ensures a.viewedAt.None? ==> (r.viewedAt.Some? <==> status == Viewed)
  {
    var b := a.(status := status, updatedAt := now);
    if status == Viewed && a.viewedAt.None? then b.(viewedAt := Some(now)) else b
  }

  /** `UpdateApplicationStatus`. Its error replies use the `{"error": …}` shape,
      and the success reply `{"message": …}` goes out with the implicit 200. */
  function UpdateStatus(db: Db, env: Env, caller: string, path: string, req: Option<string>): (o: Outcome<()>)
    ensures o.reply.status in {StatusOK, StatusBadRequest, StatusNotFound, StatusForbidden, StatusInternalServerError}
    ensures o.reply.status != StatusOK ==> o.db == db
    ensures !Strings.HasPrefix(path, StatusPrefix) ==> o.reply == ErrorEn(StatusBadRequest, BadUrl)
    ensures Strings.HasPrefix(path, StatusPrefix) && |StatusApplicationId(path)| != 24 ==>
      o.reply == ErrorEn(StatusBadRequest, BadApplicationId)
    ensures o.reply.status == StatusOK ==>
      && o.reply == Reply(StatusOK, Message("message", StatusUpdated))
      && req.Some? && req.value in ValidStatuses
      && Strings.HasPrefix(path, StatusPrefix)
      && ObjectIdFromHex(StatusApplicationId(path)).Success?
      && var id := ObjectIdFromHex(StatusApplicationId(path)).value;
      && (exists a :: a in db.applications && a.id == id && a.companyId == caller)
      && o.db == db.(applications := o.db.applications)
      && |o.db.applications| == |db.applications|
      && forall k :: 0 <= k < |db.applications| ==>
           o.db.applications[k] == db.applications[k]
           || (db.applications[k].id == id && o.db.applications[k] == WithStatus(db.applications[k], req.value, env.now))
  {
    if !Strings.HasPrefix(path, StatusPrefix) then Outcome(ErrorEn(StatusBadRequest, BadUrl), db)
    else
      var id := StatusApplicationId(path);
      if id == "" || |id| != 24 then Outcome(ErrorEn(StatusBadRequest, BadApplicationId), db)
      else match req
        case None => Outcome(ErrorEn(StatusBadRequest, InvalidData), db)
        case Some(status) =>
          if status !in ValidStatuses then Outcome(ErrorEn(StatusBadRequest, BadStatus), db)
          else match GetById(db.applications, id, env.faults)
            case Failure(_) => Outcome(ErrorEn(StatusNotFound, ApplicationNotFound), db)
            case Success(app) =>
              if app.companyId != caller then Outcome(ErrorEn(StatusForbidden, NotYourApplication), db)
              else match Update(db.applications, WithStatus(app, status, env.now), env.now, env.faults)
                case Failure(_) => Outcome(ErrorEn(StatusInternalServerError, UpdateFailed), db)
                case Success(apps) => Outcome(Reply(StatusOK, Message("message", StatusUpdated)), db.(applications := apps))
  }

  /** Once set, `viewedAt` never changes, and it is only ever set together with
      the status "viewed". */
  lemma ViewedAtWriteOnce(db: Db, env: Env, caller: string, path: string, req: Option<string>, k: nat)
    requires UniqueIds(db.applications, IdOf)
    requires k < |db.applications|
    ensures k < |UpdateStatus(db, env, caller, path, req).db.applications|
    ensures var after := UpdateStatus(db, env, caller, path, req).db.applications[k];
      && (db.applications[k].viewedAt.Some? ==> after.viewedAt == db.applications[k].viewedAt)
      && (db.applications[k].viewedAt.None? && after.viewedAt.Some? ==> after.status == Viewed)
  {
  }

  /** Setting a status changes no application's job or candidate. */
  lemma UpdateStatusKeepsOnePerPair(db: Db, env: Env, caller: string, path: string, req: Option<string>)
    requires OnePerPair(db.applications)
    ensures OnePerPair(UpdateStatus(db, env, caller, path, req).db.applications)
  {
    var o := UpdateStatus(db, env, caller, path, req);
    var s := db.applications;
    var r := o.db.applications;
    if o.reply.status == StatusOK {
      assert |r| == |s|;
      forall k | 0 <= k < |s|
        ensures r[k].id == s[k].id && r[k].jobId == s[k].jobId && r[k].candidateId == s[k].candidateId
      {
      }
    }
  }
}
