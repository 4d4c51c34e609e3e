/** jobs/model.go and the repository calls the handlers make on the `jobs`
    collection (jobs/repository.go). */
module JobsStore {
  import opened Wrappers
  import opened Store
  import Collections

  datatype Job = Job(
    id: ObjectId,
    companyId: ObjectId,
    title: string,
    description: string,
    company: string,
    location: string,
    salary: real,
    jobType: string,
    level: string,
    requirements: seq<string>,
    benefits: seq<string>,
    isActive: bool,
    createdAt: nat,
    updatedAt: nat,
    views: int,
    applicants: int,
    priority: int)

  function IdOf(j: Job): ObjectId {
    j.id
  }

  /** `Create`: a fresh id and both timestamps set to `now`; the counters are
      stored as given (the zero checks in jobs/repository.go rewrite 0 with 0). */
  function Create(s: seq<Job>, j: Job, freshId: ObjectId, now: nat, faults: set<Call>): (r: Result<(seq<Job>, Job), DbError>)
    ensures JobCreate in faults ==> r == Failure(Transient)
    ensures JobCreate !in faults ==> (r.Success? <==> forall k :: 0 <= k < |s| ==> s[k].id != freshId)
    ensures r.Success? ==>
      && r.value.0 == s + [r.value.1]
      && r.value.1.id == freshId
      && r.value.1.createdAt == now && r.value.1.updatedAt == now
      && r.value.1.(id := j.id, createdAt := j.createdAt, updatedAt := j.updatedAt) == j
  {
    if JobCreate in faults then Failure(Transient)
    else
      var stored := j.(id := freshId, createdAt := now, updatedAt := now);
      var s' :- Insert(s, IdOf, stored);
      Success((s', stored))
  }

  /** `GetByID`: a malformed id fails before the store is asked. */
  function GetById(s: seq<Job>, id: string, faults: set<Call>): (r: Result<Job, DbError>)
    ensures ObjectIdFromHex(id).Failure? ==> r == Failure(InvalidHex)
    ensures ObjectIdFromHex(id).Success? && JobById in faults ==> r == Failure(Transient)
    ensures r.Success? ==> r.value in s && r.value.id == ObjectIdFromHex(id).value
    ensures ObjectIdFromHex(id).Success? && JobById !in faults ==>
      (r == Failure(NoDocuments) <==> forall k :: 0 <= k < |s| ==> s[k].id != ObjectIdFromHex(id).value)
  {
    var oid :- ObjectIdFromHex(id);
    if JobById in faults then Failure(Transient) else FindById(s, IdOf, oid)
  }

  /** `Update`: refreshes `updatedAt`, then replaces the document with the same id. */
  function Update(s: seq<Job>, j: Job, now: nat, faults: set<Call>): (r: Result<seq<Job>, DbError>)
    ensures JobUpdate in faults <==> r.Failure?
    ensures r.Success? ==> r.value == Replace(s, IdOf, j.(updatedAt := now))
  {
    if JobUpdate in faults then Failure(Transient) else Success(Replace(s, IdOf, j.(updatedAt := now)))
  }

  /** `Delete`: removes the document with this id. */
  function Delete(s: seq<Job>, id: string, faults: set<Call>): (r: Result<seq<Job>, DbError>)
    ensures ObjectIdFromHex(id).Failure? ==> r == Failure(InvalidHex)
    ensures ObjectIdFromHex(id).Success? ==> (r.Failure? <==> JobDelete in faults)
    ensures r.Success? ==> r.value == DeleteById(s, IdOf, ObjectIdFromHex(id).value)
  {
    var oid :- ObjectIdFromHex(id);
    if JobDelete in faults then Failure(Transient) else Success(DeleteById(s, IdOf, oid))
  }

  /** `ExistsByTitleAndCompany`: some job has exactly this title and company name. */
  function ExistsByTitleAndCompany(s: seq<Job>, title: string, company: string, faults: set<Call>): (r: Result<bool, DbError>)
    ensures JobExistsByTitle in faults <==> r.Failure?
    ensures r.Success? ==> (r.value <==> exists j :: j in s && j.title == title && j.company == company)
  {
    if JobExistsByTitle in faults then Failure(Transient)
    else Success(Collections.Count(s, (j: Job) => j.title == title && j.company == company) > 0)
  }

  /** `GetByCompanyID`: the jobs of one company, in store order. */
  function GetByCompanyId(s: seq<Job>, companyId: ObjectId, faults: set<Call>): (r: Result<seq<Job>, DbError>)
    ensures JobsByCompany in faults <==> r.Failure?
    ensures r.Success? ==> forall j :: j in r.value <==> j in s && j.companyId == companyId
  {
    if JobsByCompany in faults then Failure(Transient)
    else Success(Collections.Filter(s, (j: Job) => j.companyId == companyId))
  }

  /** `$inc` on one counter of the job with this id; `f` adds +1 or -1 to that counter. */
  function Bump(s: seq<Job>, id: string, call: Call, faults: set<Call>, f: Job -> Job): (r: Result<seq<Job>, DbError>)
    ensures ObjectIdFromHex(id).Failure? ==> r == Failure(InvalidHex)
    ensures ObjectIdFromHex(id).Success? ==> (r.Failure? <==> call in faults)
    ensures r.Success? ==> r.value == Collections.UpdateFirst(s, (j: Job) => j.id == ObjectIdFromHex(id).value, f)
  {
    var oid :- ObjectIdFromHex(id);
    if call in faults then Failure(Transient)
    else Success(Collections.UpdateFirst(s, (j: Job) => j.id == oid, f))
  }

  /** `IncrementViews`. */
  function IncrementViews(s: seq<Job>, id: string, faults: set<Call>): Result<seq<Job>, DbError> {
    Bump(s, id, JobIncViews, faults, (j: Job) => j.(views := j.views + 1))
  }

  /** `IncrementApplicants`. */
  function IncrementApplicants(s: seq<Job>, id: string, faults: set<Call>): Result<seq<Job>, DbError> {
    Bump(s, id, JobIncApplicants, faults, (j: Job) => j.(applicants := j.applicants + 1))
  }

  /** `DecrementApplicants`: no floor at zero. */
  function DecrementApplicants(s: seq<Job>, id: string, faults: set<Call>): Result<seq<Job>, DbError> {
    Bump(s, id, JobDecApplicants, faults, (j: Job) => j.(applicants := j.applicants - 1))
  }

  /** `List`: every job, in store order. */
  function List(s: seq<Job>, faults: set<Call>): (r: Result<seq<Job>, DbError>)
    ensures JobsList in faults <==> r.Failure?
    ensures r.Success? ==> r.value == s
  {
    if JobsList in faults then Failure(Transient) else Success(s)
  }

  /** A created job is found again by its id. */
  lemma CreateThenGet(s: seq<Job>, j: Job, freshId: ObjectId, now: nat, faults: set<Call>)
    requires IsObjectId(freshId)
    requires Create(s, j, freshId, now, faults).Success?
    requires JobById !in faults
    ensures GetById(Create(s, j, freshId, now, faults).value.0, freshId, faults)
         == Success(Create(s, j, freshId, now, faults).value.1)
  {
    ObjectIdFromHexCanonical(freshId);
    var s' := Create(s, j, freshId, now, faults).value.0;
    assert s'[|s|].id == freshId;
  }

  /** With unique ids, an update of a stored job is what a later lookup returns. */
  lemma UpdateThenGet(s: seq<Job>, j: Job, now: nat, faults: set<Call>)
    requires UniqueIds(s, IdOf)
    requires IsObjectId(j.id)
    requires exists k :: 0 <= k < |s| && s[k].id == j.id
    requires JobUpdate !in faults && JobById !in faults
    ensures Update(s, j, now, faults).Success?
    ensures GetById(Update(s, j, now, faults).value, j.id, faults) == Success(j.(updatedAt := now))
  {
    ObjectIdFromHexCanonical(j.id);
    var x := j.(updatedAt := now);
    var r := Replace(s, IdOf, x);
    assert x in r;
    assert GetById(r, j.id, faults).Success?;
  }

  /** With unique ids, `IncrementViews` adds one view to the job with this id
      and leaves every other job as it was. */
  lemma IncrementViewsOnly(s: seq<Job>, id: string, faults: set<Call>)
    requires IncrementViews(s, id, faults).Success?
    ensures UniqueIds(s, IdOf) ==> var r := IncrementViews(s, id, faults).value;
      && |r| == |s|
      && forall k :: 0 <= k < |s| ==>
           r[k] == (if s[k].id == ObjectIdFromHex(id).value then s[k].(views := s[k].views + 1) else s[k])
  {
    var oid := ObjectIdFromHex(id).value;
    var p := (j: Job) => j.id == oid;
    match Collections.IndexWhere(s, p)
    case None =>
    case Some(i) =>
      if UniqueIds(s, IdOf) {
      forall k | 0 <= k < |s| && k != i ensures s[k].id != oid {
        if k < i { assert IdOf(s[k]) != IdOf(s[i]); } else { assert IdOf(s[i]) != IdOf(s[k]); }
      }
      }
  }
}
