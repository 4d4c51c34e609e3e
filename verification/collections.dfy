/** Sequence helpers for document collections kept in natural (insertion) order. */
module Collections {
  import opened Wrappers

  /** Position of the first element satisfying `p`, as a `FindOne` query sees it. */
  function IndexWhere<T>(s: seq<T>, p: T -> bool): (r: Option<nat>)
    ensures r.Some? ==> r.value < |s| && p(s[r.value])
    ensures r.Some? ==> forall j :: 0 <= j < r.value ==> !p(s[j])
    ensures r.None? <==> forall j :: 0 <= j < |s| ==> !p(s[j])
  {
    if |s| == 0 then None
    else if p(s[0]) then Some(0)
    else match IndexWhere(s[1..], p)
      case None => None
      case Some(k) => Some(k + 1)
  }

  /** The first element satisfying `p`, if any. */
  function FindFirst<T(!new)>(s: seq<T>, p: T -> bool): (r: Option<T>)
    ensures r.Some? ==> r.value in s && p(r.value)
    ensures r.None? <==> forall x :: x in s ==> !p(x)
  {
    match IndexWhere(s, p)
    case None => None
    case Some(k) => Some(s[k])
  }

  /** The elements satisfying `p`, in order: a `Find` cursor drained with `All`. */
  function Filter<T(!new)>(s: seq<T>, p: T -> bool): (r: seq<T>)
    ensures |r| <= |s|
    ensures forall x :: x in r <==> x in s && p(x)
    ensures forall k :: 0 <= k < |r| ==> p(r[k])
  {
    if |s| == 0 then []
    else if p(s[0]) then [s[0]] + Filter(s[1..], p)
    else Filter(s[1..], p)
  }

  /** Filtering distributes over concatenation. */
  lemma {:induction false} FilterAppend<T(!new)>(a: seq<T>, b: seq<T>, p: T -> bool)
    ensures Filter(a + b, p) == Filter(a, p) + Filter(b, p)
    decreases |a|
  {
    if |a| > 0 {
      assert (a + b)[1..] == a[1..] + b;
      FilterAppend(a[1..], b, p);
    } else {
      assert a + b == b;
    }
  }

  /** Appending one element adds one to the matches exactly when it matches. */
  lemma FilterSnoc<T(!new)>(s: seq<T>, x: T, p: T -> bool)
    ensures |Filter(s + [x], p)| == |Filter(s, p)| + (if p(x) then 1 else 0)
  {
    FilterSnocKeeps(s, x, p);
  }

  /** Appending one element extends the matches by it exactly when it matches. */
  lemma FilterSnocKeeps<T(!new)>(s: seq<T>, x: T, p: T -> bool)
    ensures Filter(s + [x], p) == Filter(s, p) + (if p(x) then [x] else [])
  {
    FilterAppend(s, [x], p);
    assert [x][1..] == [];
  }

  /** With no element satisfying `p` nothing is kept. */
  lemma {:induction false} FilterNone<T(!new)>(s: seq<T>, p: T -> bool)
    requires forall k :: 0 <= k < |s| ==> !p(s[k])
    ensures Filter(s, p) == []
  {
    if |s| > 0 {
      FilterNone(s[1..], p);
    }
  }

  /** `a` and `b` correspond one for one under `rel`. */
  predicate Pairwise<A, B>(a: seq<A>, b: seq<B>, rel: (A, B) -> bool) {
    |a| == |b| && forall k :: 0 <= k < |a| ==> rel(a[k], b[k])
  }

  /** Correspondences concatenate. */
  lemma PairwiseAppend<A, B>(a1: seq<A>, b1: seq<B>, a2: seq<A>, b2: seq<B>, rel: (A, B) -> bool)
    requires Pairwise(a1, b1, rel) && Pairwise(a2, b2, rel)
    ensures Pairwise(a1 + a2, b1 + b2, rel)
  {
    var a, b := a1 + a2, b1 + b2;
    forall k | 0 <= k < |a|
      ensures rel(a[k], b[k])
    {
      if k < |a1| {
        assert a[k] == a1[k] && b[k] == b1[k];
      } else {
        assert a[k] == a2[k - |a1|] && b[k] == b2[k - |a1|];
      }
    }
  }

  /** With every element satisfying `p` everything is kept. */
  lemma {:induction false} FilterAll<T(!new)>(s: seq<T>, p: T -> bool)
    ensures (forall k :: 0 <= k < |s| ==> p(s[k])) ==> Filter(s, p) == s
  {
    if |s| > 0 && forall k :: 0 <= k < |s| ==> p(s[k]) {
      assert forall k :: 0 <= k < |s[1..]| ==> p(s[1..][k]) by {
        forall k | 0 <= k < |s[1..]| ensures p(s[1..][k]) { assert s[1..][k] == s[k + 1]; }
      }
      FilterAll(s[1..], p);
    }
  }

  /** Removing the first match removes exactly one match. */
  lemma RemoveFirstCount<T(!new)>(s: seq<T>, p: T -> bool)
    ensures IndexWhere(s, p).None? ==> Filter(s, p) == []
    ensures IndexWhere(s, p).Some? ==> |Filter(RemoveFirst(s, p), p)| == |Filter(s, p)| - 1
  {
    if IndexWhere(s, p).None? {
      FilterNone(s, p);
      return;
    }
    var k := IndexWhere(s, p).value;
    assert s == s[..k] + ([s[k]] + s[k + 1..]);
    FilterAppend(s[..k], [s[k]] + s[k + 1..], p);
    FilterAppend([s[k]], s[k + 1..], p);
    FilterAppend(s[..k], s[k + 1..], p);
    assert [s[k]][1..] == [];
    FilterNone(s[..k], p);
  }

  /** Number of elements satisfying `p`: a `CountDocuments` query. */
  function Count<T(!new)>(s: seq<T>, p: T -> bool): (r: nat)
    ensures r <= |s|
    ensures r > 0 <==> exists x :: x in s && p(x)
  {
    var f := Filter(s, p);
    assert f != [] ==> f[0] in f;
    |f|
  }

  /** `UpdateMany`: applies `f` to every element satisfying `p`, one
      document after the other; the others stay as they are. */
  function UpdateWhere<T>(s: seq<T>, p: T -> bool, f: T -> T): (r: seq<T>)
    ensures |r| == |s|
    ensures forall k :: 0 <= k < |s| ==> r[k] == (if p(s[k]) then f(s[k]) else s[k])
  {
    if s == [] then [] else [if p(s[0]) then f(s[0]) else s[0]] + UpdateWhere(s[1..], p, f)
  }

  /** `UpdateOne`: applies `f` to the first element satisfying `p` only. */
  function UpdateFirst<T>(s: seq<T>, p: T -> bool, f: T -> T): (r: seq<T>)
    ensures |r| == |s|
    ensures IndexWhere(s, p).None? ==> r == s
    ensures IndexWhere(s, p).Some? ==>
      var k := IndexWhere(s, p).value;
      r[k] == f(s[k]) && forall j :: 0 <= j < |s| && j != k ==> r[j] == s[j]
  {
    match IndexWhere(s, p)
    case None => s
    case Some(k) => s[k := f(s[k])]
  }

  /** `DeleteOne`: removes the first element satisfying `p` only. */
  function RemoveFirst<T>(s: seq<T>, p: T -> bool): (r: seq<T>)
    ensures IndexWhere(s, p).None? ==> r == s
    ensures IndexWhere(s, p).Some? ==>
      var k := IndexWhere(s, p).value;
      |r| == |s| - 1 && multiset(s) == multiset(r) + multiset{s[k]} && r[..k] == s[..k]
  {
    match IndexWhere(s, p)
    case None => s
    case Some(k) =>
      assert s == s[..k] + [s[k]] + s[k + 1..];
      s[..k] + s[k + 1..]
  }
}
