/** applications/model.go and applications/repository.go: the `applications` collection. */
module ApplicationsStore {
  import opened Wrappers
  import opened Store
  import Collections

  /** The status every new application starts in. */
  const Pending: string := "pending"

  datatype Application = Application(
    id: ObjectId,
    candidateId: ObjectId,
    jobId: ObjectId,
    companyId: ObjectId,
    status: string,
    message: string,
    appliedAt: nat,
    viewedAt: Option<nat>,
    updatedAt: nat)

  function IdOf(a: Application): ObjectId {
    a.id
  }

  /** `Create`: a fresh id, `appliedAt = updatedAt = now` and the status forced to
      "pending", whatever the input says; the other fields are stored as given. */
  function Create(s: seq<Application>, a: Application, freshId: ObjectId, now: nat, faults: set<Call>)
    : (r: Result<(seq<Application>, Application), DbError>)
    ensures ApplicationCreate in faults ==> r == Failure(Transient)
    ensures ApplicationCreate !in faults ==> (r.Success? <==> forall k :: 0 <= k < |s| ==> s[k].id != freshId)
    ensures r.Success? ==>
      && r.value.0 == s + [r.value.1]
      && var stored := r.value.1;
      && stored.id == freshId && stored.status == Pending
      && stored.appliedAt == now && stored.updatedAt == now
      && stored.candidateId == a.candidateId && stored.jobId == a.jobId && stored.companyId == a.companyId
      && stored.message == a.message && stored.viewedAt == a.viewedAt
    ensures r.Success? && UniqueIds(s, IdOf) ==> UniqueIds(r.value.0, IdOf)
  {
    if ApplicationCreate in faults then Failure(Transient)
    else
      var stored := a.(id := freshId, appliedAt := now, updatedAt := now, status := Pending);
      var s' :- Insert(s, IdOf, stored);
      Success((s', stored))
  }

  /** `GetByID`: a malformed id fails before the store is asked. */
  function GetById(s: seq<Application>, id: string, faults: set<Call>): (r: Result<Application, DbError>)
    ensures ObjectIdFromHex(id).Failure? ==> r == Failure(InvalidHex)
    ensures ObjectIdFromHex(id).Success? && ApplicationById in faults ==> r == Failure(Transient)
    ensures r.Success? ==> r.value in s && r.value.id == ObjectIdFromHex(id).value
    ensures ObjectIdFromHex(id).Success? && ApplicationById !in faults ==>
      (r == Failure(NoDocuments) <==> forall k :: 0 <= k < |s| ==> s[k].id != ObjectIdFromHex(id).value)
  {
    var oid :- ObjectIdFromHex(id);
    if ApplicationById in faults then Failure(Transient) else FindById(s, IdOf, oid)
  }

  /** A `Find` on one id-valued field, drained with `All`: parse the id, then keep
      exactly the matching records in store order. */
  function Where(s: seq<Application>, field: Application -> ObjectId, id: string, call: Call, faults: set<Call>)
    : (r: Result<seq<Application>, DbError>)
    ensures ObjectIdFromHex(id).Failure? ==> r == Failure(InvalidHex)
    ensures ObjectIdFromHex(id).Success? ==> (r.Failure? <==> call in faults)
    ensures r.Success? ==> forall a :: a in r.value <==> a in s && field(a) == ObjectIdFromHex(id).value
    ensures r.Success? ==> |r.value| <= |s|
  {
    var oid :- ObjectIdFromHex(id);
    if call in faults then Failure(Transient)
    else Success(Collections.Filter(s, (a: Application) => field(a) == oid))
  }

  /** `GetByCandidateID`. */
  function GetByCandidateId(s: seq<Application>, candidateId: string, faults: set<Call>): Result<seq<Application>, DbError> {
    Where(s, (a: Application) => a.candidateId, candidateId, ApplicationsByCandidate, faults)
  }

  /** `GetByJobID`. */
  function GetByJobId(s: seq<Application>, jobId: string, faults: set<Call>): Result<seq<Application>, DbError> {
    Where(s, (a: Application) => a.jobId, jobId, ApplicationsByJob, faults)
  }

  /** `GetByCompanyID`. */
  function GetByCompanyId(s: seq<Application>, companyId: string, faults: set<Call>): Result<seq<Application>, DbError> {
    Where(s, (a: Application) => a.companyId, companyId, ApplicationsByCompany, faults)
  }

  predicate SamePair(a: Application, jobId: ObjectId, candidateId: ObjectId) {
    a.jobId == jobId && a.candidateId == candidateId
  }

  /** `ExistsByJobAndCandidate`: both ids must parse (job first); then true iff
      some record has this job and this candidate. */
  function ExistsByJobAndCandidate(s: seq<Application>, jobId: string, candidateId: string, faults: set<Call>)
    : (r: Result<bool, DbError>)
    ensures ObjectIdFromHex(jobId).Failure? || ObjectIdFromHex(candidateId).Failure? ==> r == Failure(InvalidHex)
    ensures ObjectIdFromHex(jobId).Success? && ObjectIdFromHex(candidateId).Success? ==>
      (r.Failure? <==> ApplicationExists in faults)
    ensures r.Success? ==>
      (r.value <==> exists a :: a in s && SamePair(a, ObjectIdFromHex(jobId).value, ObjectIdFromHex(candidateId).value))
  {
    var job :- ObjectIdFromHex(jobId);
    var candidate :- ObjectIdFromHex(candidateId);
    if ApplicationExists in faults then Failure(Transient)
    else Success(Collections.Count(s, (a: Application) => SamePair(a, job, candidate)) > 0)
  }

  /** `Update`: refreshes `updatedAt`, then replaces the record with the same id. */
  function Update(s: seq<Application>, a: Application, now: nat, faults: set<Call>): (r: Result<seq<Application>, DbError>)
    ensures ApplicationUpdate in faults <==> r.Failure?
    ensures r.Success? ==> |r.value| == |s|
    ensures r.Success? ==> forall k :: 0 <= k < |s| ==>
      r.value[k] == s[k] || (s[k].id == a.id && r.value[k] == a.(updatedAt := now))
    ensures r.Success? && UniqueIds(s, IdOf) ==> UniqueIds(r.value, IdOf)
  {
    if ApplicationUpdate in faults then Failure(Transient)
    else Success(Replace(s, IdOf, a.(updatedAt := now)))
  }

  /** `Delete`: with unique ids, removes exactly the record with this id. */
  function Delete(s: seq<Application>, id: string, faults: set<Call>): (r: Result<seq<Application>, DbError>)
    ensures ObjectIdFromHex(id).Failure? ==> r == Failure(InvalidHex)
    ensures ObjectIdFromHex(id).Success? ==> (r.Failure? <==> ApplicationDelete in faults)
    ensures r.Success? && UniqueIds(s, IdOf) ==>
      && UniqueIds(r.value, IdOf)
      && forall a :: a in r.value <==> a in s && a.id != ObjectIdFromHex(id).value
  {
    var oid :- ObjectIdFromHex(id);
    if ApplicationDelete in faults then Failure(Transient) else Success(DeleteById(s, IdOf, oid))
  }

  /** A created application is found again by its id. */
  lemma CreateThenGet(s: seq<Application>, a: Application, freshId: ObjectId, now: nat, faults: set<Call>)
    requires IsObjectId(freshId)
    requires Create(s, a, freshId, now, faults).Success?
    requires ApplicationById !in faults
    ensures GetById(Create(s, a, freshId, now, faults).value.0, freshId, faults)
         == Success(Create(s, a, freshId, now, faults).value.1)
  {
    ObjectIdFromHexCanonical(freshId);
    var s' := Create(s, a, freshId, now, faults).value.0;
    assert s'[|s|].id == freshId;
  }
}
