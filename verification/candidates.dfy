/** candidates/model.go and the repository calls the handlers make on the
    `candidates` collection. */
module Candidates {
  import opened Wrappers
  import opened Store
  import Collections

  datatype Experience = Experience(
    title: string,
    company: string,
    startDate: string,
    endDate: string,
    isCurrent: bool,
    description: string)

  datatype Candidate = Candidate(
    id: ObjectId,
    name: string,
    email: string,
    password: string,
    phone: string,
    resume: string,
    skills: seq<string>,
    experiences: seq<Experience>,
    location: string,
    linkedIn: string,
    gitHub: string,
    portfolio: string,
    createdAt: nat,
    updatedAt: nat)

  function IdOf(c: Candidate): ObjectId {
    c.id
  }

  /** `Create`: a fresh id and both timestamps set to `now`; every other field is
      stored as given. */
  function Create(s: seq<Candidate>, c: Candidate, freshId: ObjectId, now: nat, faults: set<Call>): (r: Result<(seq<Candidate>, Candidate), DbError>)
    ensures CandidateCreate in faults ==> r == Failure(Transient)
    ensures CandidateCreate !in faults ==> (r.Success? <==> forall k :: 0 <= k < |s| ==> s[k].id != freshId)
    ensures r.Success? ==>
      && r.value.0 == s + [r.value.1]
      && r.value.1.id == freshId
      && r.value.1.createdAt == now && r.value.1.updatedAt == now
      && r.value.1.(id := c.id, createdAt := c.createdAt, updatedAt := c.updatedAt) == c
  {
    if CandidateCreate in faults then Failure(Transient)
    else
      var stored := c.(id := freshId, createdAt := now, updatedAt := now);
      var s' :- Insert(s, IdOf, stored);
      Success((s', stored))
  }

  /** `GetByEmail`: the first candidate with exactly this e-mail. */
  function GetByEmail(s: seq<Candidate>, email: string, faults: set<Call>): (r: Result<Candidate, DbError>)
    ensures CandidateByEmail in faults ==> r == Failure(Transient)
    ensures CandidateByEmail !in faults ==>
      (r == Failure(NoDocuments) <==> forall k :: 0 <= k < |s| ==> s[k].email != email)
    ensures r.Success? ==> r.value in s && r.value.email == email
    ensures r.Failure? ==> r.error in {Transient, NoDocuments}
  {
    if CandidateByEmail in faults then Failure(Transient)
    else match Collections.IndexWhere(s, (c: Candidate) => c.email == email)
      case None => Failure(NoDocuments)
      case Some(k) => Success(s[k])
  }

  /** `GetByID`: a malformed id fails before the store is asked. */
  function GetById(s: seq<Candidate>, id: string, faults: set<Call>): (r: Result<Candidate, DbError>)
    ensures ObjectIdFromHex(id).Failure? ==> r == Failure(InvalidHex)
    ensures ObjectIdFromHex(id).Success? && CandidateById in faults ==> r == Failure(Transient)
    ensures r.Success? ==> r.value in s && r.value.id == ObjectIdFromHex(id).value
    ensures ObjectIdFromHex(id).Success? && CandidateById !in faults ==>
      (r == Failure(NoDocuments) <==> forall k :: 0 <= k < |s| ==> s[k].id != ObjectIdFromHex(id).value)
  {
    var oid :- ObjectIdFromHex(id);
    if CandidateById in faults then Failure(Transient) else FindById(s, IdOf, oid)
  }

  /** `Update`: refreshes `updatedAt`, then replaces the document with the same id. */
  function Update(s: seq<Candidate>, c: Candidate, now: nat, faults: set<Call>): (r: Result<seq<Candidate>, DbError>)
    ensures CandidateUpdate in faults <==> r.Failure?
    ensures r.Success? ==> r.value == Replace(s, IdOf, c.(updatedAt := now))
  {
    if CandidateUpdate in faults then Failure(Transient) else Success(Replace(s, IdOf, c.(updatedAt := now)))
  }

  /** What `UpdateOne` with `$set: c` leaves where the document `stored` was. The
      fields whose bson tag carries `omitempty` are not sent when `c` holds their
      zero value, so there `stored` keeps its own. */
  function SetOver(stored: Candidate, c: Candidate): Candidate {
    c.(resume := if c.resume == "" then stored.resume else c.resume,
       skills := if c.skills == [] then stored.skills else c.skills,
       experiences := if c.experiences == [] then stored.experiences else c.experiences,
       linkedIn := if c.linkedIn == "" then stored.linkedIn else c.linkedIn,
       gitHub := if c.gitHub == "" then stored.gitHub else c.gitHub,
       portfolio := if c.portfolio == "" then stored.portfolio else c.portfolio)
  }
}
