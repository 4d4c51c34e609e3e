/** What every handler runs against: the six collections, and the outside world
    a request sees (configuration, token codec, bcrypt, the clock, which
    repository calls fail, the id `bson.NewObjectID` hands out, the bcrypt salt). */
module Db {
  import opened Wrappers
  import opened Store
  import Hex
  import Jws
  import Jwt
  import Http
  import Companies
  import Candidates
  import JobsStore
  import ApplicationsStore
  import ResetStore
  import SavedJobsStore

  /** The outcome of reading 32 bytes from crypto/rand. */
  type Bytes32 = b: seq<Hex.Byte> | |b| == 32 witness seq(32, _ => 0 as Hex.Byte)

  datatype Db = Db(
    companies: seq<Companies.Company>,
    candidates: seq<Candidates.Candidate>,
    jobs: seq<JobsStore.Job>,
    applications: seq<ApplicationsStore.Application>,
    resets: seq<ResetStore.PasswordReset>,
    saved: seq<SavedJobsStore.SavedJob>)

  datatype Env = Env(
    cfg: Jwt.Config,
    codec: Jws.Codec,
    hasher: Jwt.Hasher,
    now: nat,
    faults: set<Call>,
    freshId: ObjectId,
    salt: nat)

  /** A handler's reply together with the collections it leaves behind. */
  datatype Outcome<T> = Outcome(reply: Http.Reply<T>, db: Db)

  /** What the two register handlers set out to keep: an e-mail names at most
      one account across both collections, and a CNPJ at most one company. */
  predicate AccountsConsistent(db: Db) {
    && (forall i, j :: 0 <= i < j < |db.companies| ==> db.companies[i].email != db.companies[j].email)
    && (forall i, j :: 0 <= i < j < |db.candidates| ==> db.candidates[i].email != db.candidates[j].email)
    && (forall i, j :: 0 <= i < |db.companies| && 0 <= j < |db.candidates| ==> db.companies[i].email != db.candidates[j].email)
    && (forall i, j :: 0 <= i < j < |db.companies| ==> db.companies[i].cnpj != db.companies[j].cnpj)
  }

  /** A candidate whose e-mail no account holds can be added. */
  lemma AddCandidateKeepsConsistent(db: Db, c: Candidates.Candidate)
    requires AccountsConsistent(db)
    requires forall k :: 0 <= k < |db.candidates| ==> db.candidates[k].email != c.email
    requires forall k :: 0 <= k < |db.companies| ==> db.companies[k].email != c.email
    ensures AccountsConsistent(db.(candidates := db.candidates + [c]))
  {
  }

  /** A company whose e-mail no account holds and whose CNPJ no company holds can be added. */
  lemma AddCompanyKeepsConsistent(db: Db, c: Companies.Company)
    requires AccountsConsistent(db)
    requires forall k :: 0 <= k < |db.companies| ==> db.companies[k].email != c.email && db.companies[k].cnpj != c.cnpj
    requires forall k :: 0 <= k < |db.candidates| ==> db.candidates[k].email != c.email
    ensures AccountsConsistent(db.(companies := db.companies + [c]))
  {
  }

  /** Candidates rewritten without touching any e-mail keep the accounts consistent. */
  lemma SameCandidateEmails(db: Db, s: seq<Candidates.Candidate>)
    requires AccountsConsistent(db) && |s| == |db.candidates|
    requires forall k :: 0 <= k < |s| ==> s[k].email == db.candidates[k].email
    ensures AccountsConsistent(db.(candidates := s))
  {
  }

  /** Companies rewritten without touching any e-mail or CNPJ keep the accounts consistent. */
  lemma SameCompanyKeys(db: Db, s: seq<Companies.Company>)
    requires AccountsConsistent(db) && |s| == |db.companies|
    requires forall k :: 0 <= k < |s| ==> s[k].email == db.companies[k].email && s[k].cnpj == db.companies[k].cnpj
    ensures AccountsConsistent(db.(companies := s))
  {
  }

  /** A repository write whose error the handler discards: on failure the
      collection stays as it was. */
  function IgnoreError<T>(r: Result<T, DbError>, fallback: T): T {
    if r.Success? then r.value else fallback
  }
}
