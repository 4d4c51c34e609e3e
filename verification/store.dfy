/** The document-store vocabulary shared by every repository: object ids,
    driver errors, the repository calls that can fail, and single-document
    insert and replace over a collection kept in natural order. */
module Store {
  import opened Wrappers
  import Hex
  import Collections

  /** A `bson.ObjectID`, held as its `.Hex()` form. */
  type ObjectId = string

  /** 24 lower-case hex digits: the form `.Hex()` produces. */
  predicate IsObjectId(s: string) {
    |s| == 24 && Hex.IsLowerHex(s)
  }

  /** An object id holds no '/', so a path segment that does is never one. */
  lemma ObjectIdHasNoSlash(id: string)
    requires IsObjectId(id)
    ensures '/' !in id
  {
    forall k | 0 <= k < |id| ensures id[k] != '/' {
      assert Hex.IsLowerHexDigit(id[k]);
    }
  }

  /** The zero `bson.ObjectID`, what a failed `ObjectIDFromHex` leaves behind. */
  const NilObjectId: ObjectId := "000000000000000000000000"

  /** `mongo.ErrNoDocuments`, `bson.ErrInvalidHex`, a duplicate `_id`, and any
      other driver failure (timeouts, lost connections). */
  datatype DbError = NoDocuments | InvalidHex | DuplicateKey | Transient

  /** `bson.ObjectIDFromHex` read back through `.Hex()`: exactly 24 hex digits,
      either letter case, normalised to lower case. */
  function ObjectIdFromHex(s: string): (r: Result<ObjectId, DbError>)
    ensures r.Success? <==> |s| == 24 && Hex.IsHex(s)
    ensures r.Success? ==> IsObjectId(r.value)
    ensures r.Failure? ==> r.error == InvalidHex
  {
    if |s| == 24 && Hex.IsHex(s) then Success(Hex.Lowered(s)) else Failure(InvalidHex)
  }

  /** The same id as the driver computes it: hex-decode the 12 bytes, then
      hex-encode them again. */
  lemma ObjectIdFromHexDecodes(s: string)
    ensures ObjectIdFromHex(s).Success? <==> |s| == 24 && Hex.Decode(s).Some?
    ensures ObjectIdFromHex(s).Success? ==> ObjectIdFromHex(s).value == Hex.Encode(Hex.Decode(s).value)
  {
    Hex.DecodeAccepts(s);
    if |s| == 24 && Hex.Decode(s).Some? {
      assert Hex.Encode(Hex.Decode(s).value) == Hex.Lowered(s) by {
        Hex.EncodeDecode(s);
      }
    }
  }

  /** An id in canonical form parses to itself, so stored ids are found by their own text. */
  lemma ObjectIdFromHexCanonical(id: string)
    requires IsObjectId(id)
    ensures ObjectIdFromHex(id) == Success(id)
  {
    assert Hex.Lowered(id) == id;
  }

  /** `ObjectIDFromHex` with its error discarded, as the saved-jobs repository does. */
  function HexOrNil(s: string): (r: ObjectId)
    ensures ObjectIdFromHex(s).Success? ==> r == ObjectIdFromHex(s).value
    ensures ObjectIdFromHex(s).Failure? ==> r == NilObjectId
  {
    match ObjectIdFromHex(s)
    case Success(id) => id
    case Failure(_) => NilObjectId
  }

  /** Each repository method a handler calls; a request runs against a set of
      them that fail with a driver error. */
  datatype Call =
    | CompanyByEmail | CompanyByCnpj | CompanyById | CompanyCreate | CompanyUpdate
    | CandidateByEmail | CandidateById | CandidateCreate | CandidateUpdate
    | JobById | JobCreate | JobUpdate | JobDelete | JobExistsByTitle | JobsByCompany | JobsList
    | JobIncViews | JobIncApplicants | JobDecApplicants
    | ApplicationCreate | ApplicationById | ApplicationsByCandidate | ApplicationsByJob
    | ApplicationsByCompany | ApplicationExists | ApplicationUpdate | ApplicationDelete
    | ResetCreate | ResetByToken | ResetMarkUsed | ResetDeleteExpired | ResetInvalidateAll
    | SavedSave | SavedUnsave | SavedIsSaved | SavedByCandidate

  /** No two documents share an `_id`: the unique index every collection has. */
  predicate UniqueIds<T>(s: seq<T>, idOf: T -> ObjectId) {
    forall i, j :: 0 <= i < j < |s| ==> idOf(s[i]) != idOf(s[j])
  }

  /** `InsertOne`: appends `x` unless its `_id` is taken. */
  function Insert<T>(s: seq<T>, idOf: T -> ObjectId, x: T): (r: Result<seq<T>, DbError>)
    ensures r.Success? <==> forall k :: 0 <= k < |s| ==> idOf(s[k]) != idOf(x)
    ensures r.Success? ==> r.value == s + [x]
    ensures r.Failure? ==> r.error == DuplicateKey
    ensures r.Success? && UniqueIds(s, idOf) ==> UniqueIds(r.value, idOf)
  {
    if exists k :: 0 <= k < |s| && idOf(s[k]) == idOf(x) then Failure(DuplicateKey)
    else Success(s + [x])
  }

  /** `FindOne({_id: id})`. */
  function FindById<T>(s: seq<T>, idOf: T -> ObjectId, id: ObjectId): (r: Result<T, DbError>)
    ensures r.Success? ==> r.value in s && idOf(r.value) == id
    ensures r.Failure? <==> forall k :: 0 <= k < |s| ==> idOf(s[k]) != id
    ensures r.Failure? ==> r.error == NoDocuments
  {
    match Collections.IndexWhere(s, x => idOf(x) == id)
    case None => Failure(NoDocuments)
    case Some(k) => Success(s[k])
  }

  /** `UpdateOne({_id: x.id}, {$set: x})`: the first document with `x`'s id
      becomes `x`; with no such document nothing changes and no error is raised. */
  function Replace<T>(s: seq<T>, idOf: T -> ObjectId, x: T): (r: seq<T>)
    ensures |r| == |s|
    ensures forall k :: 0 <= k < |s| ==> r[k] == s[k] || (idOf(s[k]) == idOf(x) && r[k] == x)
    ensures (exists k :: 0 <= k < |s| && idOf(s[k]) == idOf(x)) ==> x in r
    ensures (forall k :: 0 <= k < |s| ==> idOf(s[k]) != idOf(x)) ==> r == s
    ensures UniqueIds(s, idOf) ==> UniqueIds(r, idOf)
  {
    var r := Collections.UpdateFirst(s, y => idOf(y) == idOf(x), _ => x);
    assert Collections.IndexWhere(s, y => idOf(y) == idOf(x)).Some? ==>
      r[Collections.IndexWhere(s, y => idOf(y) == idOf(x)).value] == x;
    assert forall k :: 0 <= k < |s| ==> idOf(r[k]) == idOf(s[k]);
    r
  }

  /** `FindOne` and `UpdateOne` with the same id mean the same document: the
      only one `Replace` changes is the one `FindById` returns. */
  lemma ReplaceChangesFound<T>(s: seq<T>, idOf: T -> ObjectId, x: T)
    requires FindById(s, idOf, idOf(x)).Success?
    ensures forall k :: 0 <= k < |s| && Replace(s, idOf, x)[k] != s[k] ==> s[k] == FindById(s, idOf, idOf(x)).value
  {
  }

  /** `DeleteOne({_id: id})`. With unique ids it removes exactly the document
      with that id and keeps the order of the rest. */
  function DeleteById<T(!new)>(s: seq<T>, idOf: T -> ObjectId, id: ObjectId): (r: seq<T>)
    ensures |r| <= |s|
    ensures forall x :: x in r ==> x in s
    ensures (forall k :: 0 <= k < |s| ==> idOf(s[k]) != id) ==> r == s
    ensures UniqueIds(s, idOf) ==> UniqueIds(r, idOf)
    ensures UniqueIds(s, idOf) ==> forall x :: x in r <==> x in s && idOf(x) != id
  {
    var r := Collections.RemoveFirst(s, x => idOf(x) == id);
    match Collections.IndexWhere(s, x => idOf(x) == id)
    case None => r
    case Some(k) =>
      assert r == s[..k] + s[k + 1..];
      assert forall j :: 0 <= j < |r| ==> r[j] == (if j < k then s[j] else s[j + 1]);
      r
  }

  /** With unique ids, `Replace` swaps in `x` exactly where its id is and
      nowhere else. */
  lemma ReplacePointwise<T>(s: seq<T>, idOf: T -> ObjectId, x: T)
    requires UniqueIds(s, idOf)
    ensures forall k :: 0 <= k < |s| ==> Replace(s, idOf, x)[k] == (if idOf(s[k]) == idOf(x) then x else s[k])
  {
    var r := Replace(s, idOf, x);
    forall k | 0 <= k < |s| && idOf(s[k]) == idOf(x) ensures r[k] == x {
      var b :| 0 <= b < |r| && r[b] == x;
      assert idOf(r[b]) == idOf(r[k]);
      assert UniqueIds(r, idOf);
      assert b == k;
    }
  }

  /** With unique ids, the only document of `Replace`'s result that carries
      the id of `x` is `x`. */
  lemma ReplacedById<T>(s: seq<T>, idOf: T -> ObjectId, x: T, c: T)
    requires UniqueIds(s, idOf)
    requires c in Replace(s, idOf, x) && idOf(c) == idOf(x)
    ensures c == x
  {
    ReplacePointwise(s, idOf, x);
    var r := Replace(s, idOf, x);
    var k :| 0 <= k < |r| && r[k] == c;
  }

  /** With unique ids, a document is the only one carrying its id. */
  lemma UniqueIdAt<T>(s: seq<T>, idOf: T -> ObjectId, x: T, k: nat)
    requires UniqueIds(s, idOf)
    requires x in s && k < |s| && idOf(s[k]) == idOf(x)
    ensures s[k] == x
  {
    var b :| 0 <= b < |s| && s[b] == x;
    assert idOf(s[b]) == idOf(s[k]);
    assert b == k;
  }

  /** With unique ids, a second replacement of the same document overrides the first. */
  lemma ReplaceTwice<T>(s: seq<T>, idOf: T -> ObjectId, x: T, y: T)
    requires UniqueIds(s, idOf) && idOf(x) == idOf(y)
    ensures Replace(Replace(s, idOf, x), idOf, y) == Replace(s, idOf, y)
  {
    ReplacePointwise(s, idOf, x);
    ReplacePointwise(Replace(s, idOf, x), idOf, y);
    ReplacePointwise(s, idOf, y);
  }
}
