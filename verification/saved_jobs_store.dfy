/** internal/models/saved_job.go and internal/repository/saved_jobs.go: the
    `saved_jobs` collection, a multiset of (candidate, job) pairs. Every id
    argument goes through `ObjectIDFromHex` with its error discarded. */
module SavedJobsStore {
  import opened Wrappers
  import opened Store
  import Collections

  datatype SavedJob = SavedJob(id: ObjectId, candidateId: ObjectId, jobId: ObjectId, savedAt: nat)

  function IdOf(x: SavedJob): ObjectId {
    x.id
  }

  predicate Matches(x: SavedJob, candidateId: ObjectId, jobId: ObjectId) {
    x.candidateId == candidateId && x.jobId == jobId
  }

  /** How many entries record this pair. */
  function PairCount(s: seq<SavedJob>, candidateId: ObjectId, jobId: ObjectId): nat {
    |Collections.Filter(s, (x: SavedJob) => Matches(x, candidateId, jobId))|
  }

  /** `r` is `s` without its first entry for the pair, the others kept in order. */
  predicate RemovedFirst(s: seq<SavedJob>, r: seq<SavedJob>, candidateId: ObjectId, jobId: ObjectId) {
    exists k :: 0 <= k < |s| && Matches(s[k], candidateId, jobId)
      && (forall i :: 0 <= i < k ==> !Matches(s[i], candidateId, jobId))
      && r == s[..k] + s[k + 1..]
  }

  /** `Save`: always inserts a new entry with a fresh id and `savedAt = now`;
      nothing here stops the same pair from being saved twice. */
  function Save(s: seq<SavedJob>, candidateId: string, jobId: string, freshId: ObjectId, now: nat, faults: set<Call>)
    : (r: Result<seq<SavedJob>, DbError>)
    ensures SavedSave in faults ==> r == Failure(Transient)
    ensures SavedSave !in faults ==> (r.Success? <==> forall k :: 0 <= k < |s| ==> s[k].id != freshId)
    ensures r.Success? ==> r.value == s + [SavedJob(freshId, HexOrNil(candidateId), HexOrNil(jobId), now)]
    ensures r.Success? ==> PairCount(r.value, HexOrNil(candidateId), HexOrNil(jobId))
                           == PairCount(s, HexOrNil(candidateId), HexOrNil(jobId)) + 1
  {
    if SavedSave in faults then Failure(Transient)
    else
      var entry := SavedJob(freshId, HexOrNil(candidateId), HexOrNil(jobId), now);
      var s' :- Insert(s, IdOf, entry);
      Collections.FilterSnoc(s, entry, (x: SavedJob) => Matches(x, HexOrNil(candidateId), HexOrNil(jobId)));
      Success(s')
  }

  /** `Unsave`: removes the first entry for the pair, if any, and nothing else. */
  function Unsave(s: seq<SavedJob>, candidateId: string, jobId: string, faults: set<Call>)
    : (r: Result<seq<SavedJob>, DbError>)
    ensures SavedUnsave in faults <==> r.Failure?
    ensures r.Success? ==>
      var c := HexOrNil(candidateId);
      var j := HexOrNil(jobId);
      && (PairCount(s, c, j) == 0 ==> r.value == s)
      && (PairCount(s, c, j) > 0 ==> |r.value| == |s| - 1 && PairCount(r.value, c, j) == PairCount(s, c, j) - 1)
      && (PairCount(s, c, j) > 0 ==> RemovedFirst(s, r.value, c, j))
      && forall x :: x in r.value ==> x in s
  {
    if SavedUnsave in faults then Failure(Transient)
    else
      var p := (x: SavedJob) => Matches(x, HexOrNil(candidateId), HexOrNil(jobId));
      Collections.RemoveFirstCount(s, p);
      var r := Collections.RemoveFirst(s, p);
      match Collections.IndexWhere(s, p)
      case None => Success(r)
      case Some(k) =>
        RemoveFirstPair(s, HexOrNil(candidateId), HexOrNil(jobId));
        Success(r)
  }

  /** Removing the first entry for a saved pair is `RemovedFirst`, and it
      brings in no entry. */
  lemma RemoveFirstPair(s: seq<SavedJob>, c: ObjectId, j: ObjectId)
    requires Collections.IndexWhere(s, (x: SavedJob) => Matches(x, c, j)).Some?
    ensures RemovedFirst(s, Collections.RemoveFirst(s, (x: SavedJob) => Matches(x, c, j)), c, j)
    ensures forall x :: x in Collections.RemoveFirst(s, (x: SavedJob) => Matches(x, c, j)) ==> x in s
  {
    var p := (x: SavedJob) => Matches(x, c, j);
    var k := Collections.IndexWhere(s, p).value;
    var r := Collections.RemoveFirst(s, p);
    assert r == s[..k] + s[k + 1..];
    assert Matches(s[k], c, j);
  }

  /** `IsSaved`: true iff at least one entry records the pair. */
  function IsSaved(s: seq<SavedJob>, candidateId: string, jobId: string, faults: set<Call>)
    : (r: Result<bool, DbError>)
    ensures SavedIsSaved in faults <==> r.Failure?
    ensures r.Success? ==> (r.value <==> PairCount(s, HexOrNil(candidateId), HexOrNil(jobId)) > 0)
    ensures r.Success? ==> (r.value <==> exists x :: x in s && Matches(x, HexOrNil(candidateId), HexOrNil(jobId)))
  {
    if SavedIsSaved in faults then Failure(Transient)
    else
      var n := Collections.Count(s, (x: SavedJob) => Matches(x, HexOrNil(candidateId), HexOrNil(jobId)));
      Success(n > 0)
  }

  /** `GetByCandidate`: exactly the entries of this candidate, in store order. */
  function GetByCandidate(s: seq<SavedJob>, candidateId: string, faults: set<Call>)
    : (r: Result<seq<SavedJob>, DbError>)
    ensures SavedByCandidate in faults <==> r.Failure?
    ensures r.Success? ==> forall x :: x in r.value <==> x in s && x.candidateId == HexOrNil(candidateId)
  {
    if SavedByCandidate in faults then Failure(Transient)
    else Success(Collections.Filter(s, (x: SavedJob) => x.candidateId == HexOrNil(candidateId)))
  }

  /** At most one entry per (candidate, job): what the handlers keep up. */
  predicate PairsUnique(s: seq<SavedJob>) {
    forall i, j :: 0 <= i < j < |s| ==> !(s[i].candidateId == s[j].candidateId && s[i].jobId == s[j].jobId)
  }

  /** Saving a pair that is not yet saved keeps pairs unique. */
  lemma SaveFreshPairKeepsUnique(s: seq<SavedJob>, candidateId: string, jobId: string, freshId: ObjectId, now: nat, faults: set<Call>)
    requires PairsUnique(s)
    requires PairCount(s, HexOrNil(candidateId), HexOrNil(jobId)) == 0
    requires Save(s, candidateId, jobId, freshId, now, faults).Success?
    ensures PairsUnique(Save(s, candidateId, jobId, freshId, now, faults).value)
  {
    var c := HexOrNil(candidateId);
    var j := HexOrNil(jobId);
    var p := (x: SavedJob) => Matches(x, c, j);
    forall k | 0 <= k < |s|
      ensures !Matches(s[k], c, j)
    {
      assert Collections.Filter(s, p) == [];
      assert s[k] in s && s[k] !in Collections.Filter(s, p);
    }
  }

  /** Removing entries keeps pairs unique. */
  lemma UnsaveKeepsUnique(s: seq<SavedJob>, candidateId: string, jobId: string, faults: set<Call>)
    requires PairsUnique(s)
    requires Unsave(s, candidateId, jobId, faults).Success?
    ensures PairsUnique(Unsave(s, candidateId, jobId, faults).value)
  {
    var p := (x: SavedJob) => Matches(x, HexOrNil(candidateId), HexOrNil(jobId));
    var r := Unsave(s, candidateId, jobId, faults).value;
    assert r == Collections.RemoveFirst(s, p);
    if Collections.IndexWhere(s, p).Some? {
      var k := Collections.IndexWhere(s, p).value;
      assert r == s[..k] + s[k + 1..];
      forall a, b | 0 <= a < b < |r|
        ensures !(r[a].candidateId == r[b].candidateId && r[a].jobId == r[b].jobId)
      {
        var a' := if a < k then a else a + 1;
        var b' := if b < k then b else b + 1;
        assert r[a] == s[a'] && r[b] == s[b'] && a' < b';
      }
    }
  }
}
