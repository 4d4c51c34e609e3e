/** companies/model.go and the repository calls the handlers make on the
    `companies` collection. */
module Companies {
  import opened Wrappers
  import opened Store
  import Collections

  /** The status every new company starts in. */
  const PendingVerification: string := "pending"

  datatype Company = Company(
    id: ObjectId,
    name: string,
    legalName: string,
    cnpj: string,
    email: string,
    password: string,
    phone: string,
    website: string,
    logo: string,
    about: string,
    employeeCount: string,
    location: string,
    sector: string,
    verificationStatus: string,
    createdAt: nat,
    updatedAt: nat)

  function IdOf(c: Company): ObjectId {
    c.id
  }

  /** `Create`: a fresh id, both timestamps set to `now` and the status forced to
      "pending"; every other field is stored as given. */
  function Create(s: seq<Company>, c: Company, freshId: ObjectId, now: nat, faults: set<Call>): (r: Result<(seq<Company>, Company), DbError>)
    ensures CompanyCreate in faults ==> r == Failure(Transient)
    ensures CompanyCreate !in faults ==> (r.Success? <==> forall k :: 0 <= k < |s| ==> s[k].id != freshId)
    ensures r.Success? ==>
      && r.value.0 == s + [r.value.1]
      && r.value.1.id == freshId
      && r.value.1.createdAt == now && r.value.1.updatedAt == now
      && r.value.1.verificationStatus == PendingVerification
      && r.value.1.(id := c.id, createdAt := c.createdAt, updatedAt := c.updatedAt, verificationStatus := c.verificationStatus) == c
  {
    if CompanyCreate in faults then Failure(Transient)
    else
      var stored := c.(id := freshId, createdAt := now, updatedAt := now, verificationStatus := PendingVerification);
      var s' :- Insert(s, IdOf, stored);
      Success((s', stored))
  }

  /** `GetByEmail`: the first company with exactly this e-mail. */
  function GetByEmail(s: seq<Company>, email: string, faults: set<Call>): (r: Result<Company, DbError>)
    ensures CompanyByEmail in faults ==> r == Failure(Transient)
    ensures CompanyByEmail !in faults ==>
      (r == Failure(NoDocuments) <==> forall k :: 0 <= k < |s| ==> s[k].email != email)
    ensures r.Success? ==> r.value in s && r.value.email == email
    ensures r.Failure? ==> r.error in {Transient, NoDocuments}
  {
    if CompanyByEmail in faults then Failure(Transient)
    else match Collections.IndexWhere(s, (c: Company) => c.email == email)
      case None => Failure(NoDocuments)
      case Some(k) => Success(s[k])
  }

  /** `GetByCNPJ`: the first company with exactly this CNPJ. */
  function GetByCnpj(s: seq<Company>, cnpj: string, faults: set<Call>): (r: Result<Company, DbError>)
    ensures CompanyByCnpj in faults ==> r == Failure(Transient)
    ensures CompanyByCnpj !in faults ==>
      (r == Failure(NoDocuments) <==> forall k :: 0 <= k < |s| ==> s[k].cnpj != cnpj)
    ensures r.Success? ==> r.value in s && r.value.cnpj == cnpj
  {
    if CompanyByCnpj in faults then Failure(Transient)
    else match Collections.IndexWhere(s, (c: Company) => c.cnpj == cnpj)
      case None => Failure(NoDocuments)
      case Some(k) => Success(s[k])
  }

  /** `GetByID`: a malformed id fails before the store is asked. */
  function GetById(s: seq<Company>, id: string, faults: set<Call>): (r: Result<Company, DbError>)
    ensures ObjectIdFromHex(id).Failure? ==> r == Failure(InvalidHex)
    ensures ObjectIdFromHex(id).Success? && CompanyById in faults ==> r == Failure(Transient)
    ensures r.Success? ==> r.value in s && r.value.id == ObjectIdFromHex(id).value
    ensures ObjectIdFromHex(id).Success? && CompanyById !in faults ==>
      (r == Failure(NoDocuments) <==> forall k :: 0 <= k < |s| ==> s[k].id != ObjectIdFromHex(id).value)
  {
    var oid :- ObjectIdFromHex(id);
    if CompanyById in faults then Failure(Transient) else FindById(s, IdOf, oid)
  }

  /** `Update`: refreshes `updatedAt`, then replaces the document with the same id. */
  function Update(s: seq<Company>, c: Company, now: nat, faults: set<Call>): (r: Result<seq<Company>, DbError>)
    ensures CompanyUpdate in faults <==> r.Failure?
    ensures r.Success? ==> r.value == Replace(s, IdOf, c.(updatedAt := now))
  {
    if CompanyUpdate in faults then Failure(Transient) else Success(Replace(s, IdOf, c.(updatedAt := now)))
  }

  /** What `UpdateOne` with `$set: c` leaves where the document `stored` was. The
      fields whose bson tag carries `omitempty` are not sent when `c` holds their
      zero value, so there `stored` keeps its own. */
  function SetOver(stored: Company, c: Company): Company {
    c.(website := if c.website == "" then stored.website else c.website,
       logo := if c.logo == "" then stored.logo else c.logo,
       about := if c.about == "" then stored.about else c.about,
       employeeCount := if c.employeeCount == "" then stored.employeeCount else c.employeeCount,
       sector := if c.sector == "" then stored.sector else c.sector)
  }
}
