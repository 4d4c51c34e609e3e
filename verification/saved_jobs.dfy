/** internal/http/handlers/saved_jobs.go: a candidate's favourite jobs. The
    repository would record a pair any number of times; `SaveJob`'s check
    first is what keeps one entry per (candidate, job). Replies here use the
    English keys `error` and `message`. */
module SavedJobHandlers {
  import opened Wrappers
  import opened Store
  import opened Http
  import opened Db
  import opened SavedJobsStore
  import Strings
  import Collections
  import JobsStore

  const InvalidData: string := "Dados inválidos"
  const MissingJobId: string := "job_id é obrigatório"
  const JobNotFound: string := "Vaga não encontrada"
  const JobLookupFailed: string := "Erro ao buscar vaga"
  const CheckFailed: string := "Erro ao verificar vaga salva"
  const AlreadySaved: string := "Vaga já está nos favoritos"
  const SaveFailed: string := "Erro ao salvar vaga"
  const Saved: string := "Vaga salva nos favoritos"
  const NotSaved: string := "Vaga não está nos favoritos"
  const UnsaveFailed: string := "Erro ao remover vaga dos favoritos"
  const Unsaved: string := "Vaga removida dos favoritos"
  const ListFailed: string := "Erro ao buscar vagas salvas"

  const SavedJobsPrefix: string := "/candidate/saved-jobs/"

  datatype SaveRequest = SaveRequest(jobId: string)

  /** One element of the `ListSavedJobs` reply: `{"job", "saved_at"}`. */
  datatype SavedDetail = SavedDetail(job: JobsStore.Job, savedAt: nat)

  /** `{"message": text}`. */
  function Note<T>(status: nat, text: string): Reply<T> {
    Reply(status, Message("message", text))
  }

  // ----- SaveJob -----

  /** `SaveJob`: the job must exist; a pair already saved is refused, so the
      handler never records a pair twice. */
  function SaveJob(db: Db, env: Env, caller: string, req: Option<SaveRequest>): (o: Outcome<()>)
    ensures o.reply.status in {StatusCreated, StatusBadRequest, StatusNotFound, StatusConflict, StatusInternalServerError}
    ensures o.reply.status != StatusCreated ==> o.db == db
    ensures o.reply.status == StatusBadRequest <==> req.None? || req.value.jobId == ""
    ensures o.reply.status == StatusNotFound <==>
      && req.Some? && req.value.jobId != "" && ObjectIdFromHex(req.value.jobId).Success? && JobById !in env.faults
      && forall j :: j in db.jobs ==> j.id != ObjectIdFromHex(req.value.jobId).value
    ensures o.reply.status == StatusConflict ==>
      && o.reply == ErrorEn(StatusConflict, AlreadySaved)
      && req.Some? && PairCount(db.saved, HexOrNil(caller), HexOrNil(req.value.jobId)) > 0
    ensures o.reply.status == StatusCreated ==>
      && o.reply == Note(StatusCreated, Saved)
      && req.Some? && ObjectIdFromHex(req.value.jobId).Success?
      && var jobId := ObjectIdFromHex(req.value.jobId).value;
      && (exists j :: j in db.jobs && j.id == jobId)
      && PairCount(db.saved, HexOrNil(caller), jobId) == 0
      && o.db == db.(saved := db.saved + [SavedJob(env.freshId, HexOrNil(caller), jobId, env.now)])
  {
    match req
    case None => Outcome(ErrorEn(StatusBadRequest, InvalidData), db)
    case Some(q) =>
      if q.jobId == "" then Outcome(ErrorEn(StatusBadRequest, MissingJobId), db)
      else match JobsStore.GetById(db.jobs, q.jobId, env.faults)
        case Failure(e) =>
          if e == NoDocuments then Outcome(ErrorEn(StatusNotFound, JobNotFound), db)
          else Outcome(ErrorEn(StatusInternalServerError, JobLookupFailed), db)
        case Success(_) =>
          match IsSaved(db.saved, caller, q.jobId, env.faults)
          case Failure(_) => Outcome(ErrorEn(StatusInternalServerError, CheckFailed), db)
          case Success(already) =>
            if already then Outcome(ErrorEn(StatusConflict, AlreadySaved), db)
            else match Save(db.saved, caller, q.jobId, env.freshId, env.now, env.faults)
              case Failure(_) => Outcome(ErrorEn(StatusInternalServerError, SaveFailed), db)
              case Success(saved) => Outcome(Note(StatusCreated, Saved), db.(saved := saved))
  }

  /** Through `SaveJob`, a candidate saves each job at most once. */
  lemma SaveJobKeepsPairsUnique(db: Db, env: Env, caller: string, req: Option<SaveRequest>)
    requires PairsUnique(db.saved)
    ensures PairsUnique(SaveJob(db, env, caller, req).db.saved)
  {
    var o := SaveJob(db, env, caller, req);
    if o.reply.status == StatusCreated {
      SaveFreshPairKeepsUnique(db.saved, caller, req.value.jobId, env.freshId, env.now, env.faults);
    }
  }

  /** Saving the same job a second time is refused with 409. */
  lemma SaveTwiceConflicts(db: Db, env: Env, env': Env, caller: string, req: Option<SaveRequest>)
    requires SaveJob(db, env, caller, req).reply.status == StatusCreated
    requires JobById !in env'.faults && SavedIsSaved !in env'.faults
    ensures SaveJob(SaveJob(db, env, caller, req).db, env', caller, req).reply == ErrorEn(StatusConflict, AlreadySaved)
  {
    var db' := SaveJob(db, env, caller, req).db;
    var jobId := ObjectIdFromHex(req.value.jobId).value;
    var j :| j in db.jobs && j.id == jobId;
    assert JobsStore.GetById(db'.jobs, req.value.jobId, env'.faults).Success?;
    assert HexOrNil(req.value.jobId) == jobId;
  }

  // ----- UnsaveJob -----

  /** The job id of "/candidate/saved-jobs/{job_id}": the first segment after
      the prefix, so anything from the next '/' on is ignored. */
  function UnsavePathId(path: string): (id: string)
    ensures '/' !in id
    ensures Strings.HasPrefix(path, SavedJobsPrefix) ==> Strings.HasPrefix(path[|SavedJobsPrefix|..], id)
  {
    var parts := Strings.Split(Strings.TrimPrefix(path, SavedJobsPrefix), '/');
    Strings.SplitHead(Strings.TrimPrefix(path, SavedJobsPrefix), '/');
    parts[0]
  }

  /** The path built from an id without '/' gives that id back, whatever
      segments follow it. */
  lemma UnsavePathIdRecovers(id: string, rest: string)
    requires '/' !in id
    ensures UnsavePathId(SavedJobsPrefix + id) == id
    ensures UnsavePathId(SavedJobsPrefix + id + "/" + rest) == id
  {
    assert UnsavePathId(SavedJobsPrefix + id) == id by {
      assert Strings.HasPrefix(SavedJobsPrefix + id, SavedJobsPrefix);
      assert (SavedJobsPrefix + id)[|SavedJobsPrefix|..] == id;
      Strings.SplitHead(id, '/');
    }
    var tail := id + "/" + rest;
    assert Strings.Split(tail, '/')[0] == id by {
      assert tail[|id|] == '/';
      assert tail[..|id|] == id;
      Strings.SplitHead(tail, '/');
    }
    var long := SavedJobsPrefix + id + "/" + rest;
    assert Strings.HasPrefix(long, SavedJobsPrefix) && long[|SavedJobsPrefix|..] == tail;
  }

  /** `UnsaveJob`: removes one entry for the pair, or 404 if there is none.
      The job itself is not looked up. */
  function UnsaveJob(db: Db, env: Env, caller: string, path: string): (o: Outcome<()>)
    ensures o.reply.status in {StatusOK, StatusBadRequest, StatusNotFound, StatusInternalServerError}
    ensures o.reply.status != StatusOK ==> o.db == db
    ensures o.reply.status == StatusBadRequest <==> UnsavePathId(path) == ""
    ensures o.reply.status == StatusNotFound <==>
      UnsavePathId(path) != "" && SavedIsSaved !in env.faults && PairCount(db.saved, HexOrNil(caller), HexOrNil(UnsavePathId(path))) == 0
    ensures o.reply.status == StatusOK ==>
      && o.reply == Note(StatusOK, Unsaved)
      && var c := HexOrNil(caller);
      && var j := HexOrNil(UnsavePathId(path));
      && PairCount(db.saved, c, j) > 0
      && PairCount(o.db.saved, c, j) == PairCount(db.saved, c, j) - 1
      && |o.db.saved| == |db.saved| - 1
      && RemovedFirst(db.saved, o.db.saved, c, j)
      && (forall x :: x in o.db.saved ==> x in db.saved)
      && o.db == db.(saved := o.db.saved)
  {
    var jobId := UnsavePathId(path);
    if jobId == "" then Outcome(ErrorEn(StatusBadRequest, MissingJobId), db)
    else match IsSaved(db.saved, caller, jobId, env.faults)
      case Failure(_) => Outcome(ErrorEn(StatusInternalServerError, CheckFailed), db)
      case Success(present) =>
        if !present then Outcome(ErrorEn(StatusNotFound, NotSaved), db)
        else match Unsave(db.saved, caller, jobId, env.faults)
          case Failure(_) => Outcome(ErrorEn(StatusInternalServerError, UnsaveFailed), db)
          case Success(saved) => Outcome(Note(StatusOK, Unsaved), db.(saved := saved))
  }

  /** `UnsaveJob` keeps pairs unique. */
  lemma UnsaveJobKeepsPairsUnique(db: Db, env: Env, caller: string, path: string)
    requires PairsUnique(db.saved)
    ensures PairsUnique(UnsaveJob(db, env, caller, path).db.saved)
  {
    var o := UnsaveJob(db, env, caller, path);
    if o.reply.status == StatusOK {
      UnsaveKeepsUnique(db.saved, caller, UnsavePathId(path), env.faults);
    }
  }

  /** Saving a job and then unsaving it by its path leaves the pair unsaved again. */
  lemma SaveThenUnsave(db: Db, env: Env, caller: string, jobId: string)
    requires IsObjectId(jobId) && env.faults == {}
    requires SaveJob(db, env, caller, Some(SaveRequest(jobId))).reply.status == StatusCreated
    ensures var saved := SaveJob(db, env, caller, Some(SaveRequest(jobId))).db;
      var o := UnsaveJob(saved, env, caller, SavedJobsPrefix + jobId);
      && o.reply == Note(StatusOK, Unsaved)
      && PairCount(o.db.saved, HexOrNil(caller), jobId) == 0
  {
    ObjectIdHasNoSlash(jobId);
    UnsavePathIdRecovers(jobId, "");
    ObjectIdFromHexCanonical(jobId);
    var saved := SaveJob(db, env, caller, Some(SaveRequest(jobId))).db;
    var p := (x: SavedJob) => Matches(x, HexOrNil(caller), jobId);
    Collections.FilterSnoc(db.saved, SavedJob(env.freshId, HexOrNil(caller), jobId, env.now), p);
    assert PairCount(saved.saved, HexOrNil(caller), jobId) == 1;
  }

  // ----- ListSavedJobs -----

  /** The entry's job is still there to be shown. */
  predicate Resolvable(jobs: seq<JobsStore.Job>, faults: set<Call>, x: SavedJob) {
    JobsStore.GetById(jobs, x.jobId, faults).Success?
  }

  function ResolvableIn(jobs: seq<JobsStore.Job>, faults: set<Call>): SavedJob -> bool {
    x => Resolvable(jobs, faults, x)
  }

  /** What one entry contributes: its job with the time it was saved, when
      the job loads, and nothing otherwise. */
  function Found(jobs: seq<JobsStore.Job>, faults: set<Call>, x: SavedJob): (r: seq<SavedDetail>)
    ensures |r| == 1 <==> Resolvable(jobs, faults, x)
    ensures |r| <= 1
    ensures |r| == 1 ==>
      && r[0].job in jobs && r[0].savedAt == x.savedAt
      && ObjectIdFromHex(x.jobId) == Success(r[0].job.id)
  {
    match JobsStore.GetById(jobs, x.jobId, faults)
    case Success(j) => [SavedDetail(j, x.savedAt)]
    case Failure(_) => []
  }

  /** The saved entries whose job still loads, each with its job, in order;
      entries whose job was deleted are skipped. */
  function Details(entries: seq<SavedJob>, jobs: seq<JobsStore.Job>, faults: set<Call>): (r: seq<SavedDetail>)
    ensures |r| <= |entries|
    ensures forall k :: 0 <= k < |r| ==> r[k].job in jobs
    decreases |entries|
  {
    if |entries| == 0 then []
    else Details(entries[..|entries| - 1], jobs, faults) + Found(jobs, faults, entries[|entries| - 1])
  }

  /** One detail per entry whose job loads. */
  lemma {:induction false} DetailsCount(entries: seq<SavedJob>, jobs: seq<JobsStore.Job>, faults: set<Call>)
    ensures |Details(entries, jobs, faults)| == |Collections.Filter(entries, ResolvableIn(jobs, faults))|
    decreases |entries|
  {
    if |entries| > 0 {
      var init := entries[..|entries| - 1];
      var last := entries[|entries| - 1];
      DetailsCount(init, jobs, faults);
      assert entries == init + [last];
      Collections.FilterSnoc(init, last, ResolvableIn(jobs, faults));
    }
  }

  /** The detail shown for an entry whose job loads. */
  function Shown(jobs: seq<JobsStore.Job>, faults: set<Call>, x: SavedJob): SavedDetail
    requires Resolvable(jobs, faults, x)
  {
    SavedDetail(JobsStore.GetById(jobs, x.jobId, faults).value, x.savedAt)
  }

  /** `d` is what entry `x` shows: its job, loaded, with the save time. */
  predicate ShowsEntry(jobs: seq<JobsStore.Job>, faults: set<Call>, d: SavedDetail, x: SavedJob) {
    Resolvable(jobs, faults, x) && d == Shown(jobs, faults, x)
  }

  function ShowsEntryIn(jobs: seq<JobsStore.Job>, faults: set<Call>): (SavedDetail, SavedJob) -> bool {
    (d, x) => ShowsEntry(jobs, faults, d, x)
  }

  /** One entry contributes its detail exactly when its job loads. */
  lemma FoundShows(jobs: seq<JobsStore.Job>, faults: set<Call>, x: SavedJob)
    ensures Collections.Pairwise(Found(jobs, faults, x), if Resolvable(jobs, faults, x) then [x] else [], ShowsEntryIn(jobs, faults))
  {
    var found := Found(jobs, faults, x);
    if Resolvable(jobs, faults, x) {
      assert ShowsEntry(jobs, faults, found[0], x);
    }
  }

  /** The details are exactly the entries whose job loads, each shown with
      its job and save time, in the entries' order and each once. */
  lemma {:induction false} DetailsAreResolvable(entries: seq<SavedJob>, jobs: seq<JobsStore.Job>, faults: set<Call>)
    ensures Collections.Pairwise(Details(entries, jobs, faults), Collections.Filter(entries, ResolvableIn(jobs, faults)), ShowsEntryIn(jobs, faults))
    decreases |entries|
  {
    if |entries| > 0 {
      var init := entries[..|entries| - 1];
      var last := entries[|entries| - 1];
      DetailsAreResolvable(init, jobs, faults);
      assert entries == init + [last];
      Collections.FilterSnocKeeps(init, last, ResolvableIn(jobs, faults));
      var extra := if Resolvable(jobs, faults, last) then [last] else [];
      FoundShows(jobs, faults, last);
      Collections.PairwiseAppend(Details(init, jobs, faults), Collections.Filter(init, ResolvableIn(jobs, faults)),
                                 Found(jobs, faults, last), extra, ShowsEntryIn(jobs, faults));
    }
  }

  /** Some entry names the detail's job and carries its save time. */
  predicate Traced(entries: seq<SavedJob>, d: SavedDetail) {
    exists x :: x in entries && x.savedAt == d.savedAt && ObjectIdFromHex(x.jobId) == Success(d.job.id)
  }

  /** Each detail comes from one of the entries: the job the entry names,
      shown with the entry's save time. */
  lemma {:induction false} DetailsTraceBack(entries: seq<SavedJob>, jobs: seq<JobsStore.Job>, faults: set<Call>)
    ensures forall k :: 0 <= k < |Details(entries, jobs, faults)| ==> Traced(entries, Details(entries, jobs, faults)[k])
    decreases |entries|
  {
    if |entries| > 0 {
      var init := entries[..|entries| - 1];
      var last := entries[|entries| - 1];
      assert entries == init + [last];
      DetailsTraceBack(init, jobs, faults);
      var rest := Details(init, jobs, faults);
      var found := Found(jobs, faults, last);
      assert Details(entries, jobs, faults) == rest + found;
      forall k | 0 <= k < |rest| + |found| ensures Traced(entries, (rest + found)[k]) {
        if k < |rest| {
          var x :| x in init && x.savedAt == rest[k].savedAt && ObjectIdFromHex(x.jobId) == Success(rest[k].job.id);
          assert x in entries;
        } else {
          assert (rest + found)[k] == found[0];
          assert last in entries;
        }
      }
    }
  }

  /** The loop of the handler: one job lookup per saved entry, appending the
      job when the lookup succeeds. */
  method GatherDetails(entries: seq<SavedJob>, jobs: seq<JobsStore.Job>, faults: set<Call>)
    returns (r: seq<SavedDetail>)
    ensures r == Details(entries, jobs, faults)
    ensures |r| <= |entries|
  {
    r := [];
    var i := 0;
    while i < |entries|
      invariant 0 <= i <= |entries|
      invariant r == Details(entries[..i], jobs, faults)
    {
      assert entries[..i + 1][..i] == entries[..i];
      r := r + Found(jobs, faults, entries[i]);
      i := i + 1;
    }
    assert entries[..i] == entries;
  }

  /** `ListSavedJobs`: the caller's saved jobs that still exist, with the
      time each was saved. */
  function ListSavedJobs(db: Db, env: Env, caller: string): (r: Reply<seq<SavedDetail>>)
    ensures r.status in {StatusOK, StatusInternalServerError}
    ensures r.status == StatusOK <==> SavedByCandidate !in env.faults
    ensures r.status == StatusOK ==>
      && r.body.Data?
      && var mine := GetByCandidate(db.saved, caller, env.faults).value;
      && |r.body.value| == |Collections.Filter(mine, ResolvableIn(db.jobs, env.faults))|
      && |r.body.value| <= |mine|
      && (forall k :: 0 <= k < |r.body.value| ==> r.body.value[k].job in db.jobs)
      && var resolvable := Collections.Filter(mine, ResolvableIn(db.jobs, env.faults));
      && forall k :: 0 <= k < |resolvable| ==> r.body.value[k] == Shown(db.jobs, env.faults, resolvable[k])
  {
    match GetByCandidate(db.saved, caller, env.faults)
    case Failure(_) => ErrorEn(StatusInternalServerError, ListFailed)
    case Success(mine) =>
      DetailsAreResolvable(mine, db.jobs, env.faults);
      Ok(StatusOK, Details(mine, db.jobs, env.faults))
  }
  /** Every job `ListSavedJobs` shows is one the caller saved, with the time
      it was saved. */
  lemma ListShowsOnlySaved(db: Db, env: Env, caller: string)
    requires ListSavedJobs(db, env, caller).status == StatusOK
    ensures var shown := ListSavedJobs(db, env, caller).body.value;
      forall k :: 0 <= k < |shown| ==>
        exists x :: x in db.saved && x.candidateId == HexOrNil(caller) && x.savedAt == shown[k].savedAt
                 && ObjectIdFromHex(x.jobId) == Success(shown[k].job.id)
  {
    var mine := GetByCandidate(db.saved, caller, env.faults).value;
    DetailsTraceBack(mine, db.jobs, env.faults);
    var shown := Details(mine, db.jobs, env.faults);
    forall k | 0 <= k < |shown|
      ensures exists x :: x in db.saved && x.candidateId == HexOrNil(caller) && x.savedAt == shown[k].savedAt
                 && ObjectIdFromHex(x.jobId) == Success(shown[k].job.id)
    {
      assert Traced(mine, shown[k]);
      var x :| x in mine && x.savedAt == shown[k].savedAt && ObjectIdFromHex(x.jobId) == Success(shown[k].job.id);
      assert x in db.saved && x.candidateId == HexOrNil(caller);
    }
  }

}
