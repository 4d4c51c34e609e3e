/** cmd/api/main.go: the allowed CORS origins, read from one configuration
    string of comma-separated entries. */
module Origins {
  import opened Wrappers
  import opened Strings
  import Collections

  /** The origin allowed when none is configured. */
  const DefaultOrigin: string := "http://localhost:3000"

  /** The separator `parseOrigins` splits on. */
  const Comma: string := ","

  /** The two characters the hand-written trim of `splitAndTrim` removes. */
  predicate IsBlank(c: char) {
    c == ' ' || c == '\t'
  }

  /** An entry as `splitAndTrim` keeps it: non-empty, no blank at either end. */
  predicate Clean(x: string) {
    |x| > 0 && !IsBlank(x[0]) && !IsBlank(x[|x| - 1])
  }

  /** `x` without its leading spaces and tabs. */
  function TrimFront(x: string): (r: string)
    ensures |r| <= |x| && r == x[|x| - |r|..]
    ensures forall i :: 0 <= i < |x| - |r| ==> IsBlank(x[i])
    ensures |r| > 0 ==> !IsBlank(r[0])
    decreases |x|
  {
    if |x| > 0 && IsBlank(x[0]) then TrimFront(x[1..]) else x
  }

  /** `x` without its trailing spaces and tabs. */
  function TrimBack(x: string): (r: string)
    ensures |r| <= |x| && r == x[..|r|]
    ensures forall i :: |r| <= i < |x| ==> IsBlank(x[i])
    ensures |r| > 0 ==> !IsBlank(r[|r| - 1])
    decreases |x|
  {
    if |x| > 0 && IsBlank(x[|x| - 1]) then TrimBack(x[..|x| - 1]) else x
  }

  /** Spaces and tabs off both ends. */
  function Trim(x: string): (r: string)
    ensures |r| <= |x|
    ensures |r| > 0 ==> Clean(r)
  {
    TrimBack(TrimFront(x))
  }

  /** Trimming brings in no character that was not there. */
  lemma TrimKeepsOut(x: string, c: char)
    ensures c !in x ==> c !in Trim(x)
  {
    var l := TrimFront(x);
    var r := TrimBack(l);
    assert forall k :: 0 <= k < |l| ==> l[k] == x[|x| - |l| + k];
    assert forall k :: 0 <= k < |r| ==> r[k] == l[k];
  }

  /** A clean entry is its own trim. */
  lemma TrimOfClean(x: string)
    requires Clean(x)
    ensures Trim(x) == x
  {
  }

  /** A trimmed piece, kept only when something is left of it. */
  function Keep(x: string): (r: seq<string>)
    ensures |r| <= 1
    ensures forall k :: 0 <= k < |r| ==> Clean(r[k])
  {
    var t := Trim(x);
    if t == "" then [] else [t]
  }

  /** The separator test of the inner loop, `string(s[j]) == sep`: only a
      one-character separator can ever match. */
  predicate IsSep(c: char, sep: string) {
    |sep| == 1 && c == sep[0]
  }

  lemma SepTest(c: char, sep: string)
    ensures ([c] == sep) == IsSep(c, sep)
  {
    if |sep| == 1 && c == sep[0] { assert [c] == sep; }
  }

  /** What `splitAndTrim(s, sep)` returns, piece by piece; any separator but a
      one-character one leaves `s` in one piece. */
  function Pieces(s: string, sep: string): seq<string>
    decreases |s|
  {
    if |sep| != 1 then Keep(s)
    else match IndexOf(s, sep[0])
      case None => Keep(s)
      case Some(k) => Keep(s[..k]) + Pieces(s[k + 1..], sep)
  }

  /** Every piece is clean, and none holds a one-character separator. */
  lemma {:induction false} PiecesClean(s: string, sep: string)
    ensures forall k :: 0 <= k < |Pieces(s, sep)| ==> Clean(Pieces(s, sep)[k])
    ensures |sep| == 1 ==> forall k :: 0 <= k < |Pieces(s, sep)| ==> sep[0] !in Pieces(s, sep)[k]
    decreases |s|
  {
    if |sep| == 1 {
      match IndexOf(s, sep[0])
      case None =>
        TrimKeepsOut(s, sep[0]);
      case Some(k) =>
        TrimKeepsOut(s[..k], sep[0]);
        PiecesClean(s[k + 1..], sep);
        var a := Keep(s[..k]);
        var b := Pieces(s[k + 1..], sep);
        forall m | 0 <= m < |a + b| ensures Clean((a + b)[m]) && sep[0] !in (a + b)[m] {
          if m >= |a| {
            assert (a + b)[m] == b[m - |a|];
          }
        }
    }
  }

  /** Where no separator occurs the whole string is one piece. */
  lemma PiecesNoSep(s: string, sep: string)
    requires forall m :: 0 <= m < |s| ==> !IsSep(s[m], sep)
    ensures Pieces(s, sep) == Keep(s)
  {
    if |sep| == 1 {
      assert forall m :: 0 <= m < |s| ==> s[m] != sep[0];
      assert sep[0] !in s;
    }
  }

  /** Nothing to split, nothing kept. */
  lemma PiecesOfEmpty(sep: string)
    ensures Pieces([], sep) == []
  {
    PiecesNoSep([], sep);
  }

  /** A separator at `j`, the first: the piece before it, then the rest after it. */
  lemma PiecesAtSep(s: string, sep: string, j: nat)
    requires j < |s| && IsSep(s[j], sep)
    requires forall m :: 0 <= m < j ==> !IsSep(s[m], sep)
    ensures Pieces(s, sep) == Keep(s[..j]) + Pieces(s[j + 1..], sep)
  {
    var c := sep[0];
    assert c in s by { assert s[j] == c; }
    var v := IndexOf(s, c).value;
    if v != j {
      assert false;
    }
  }

  /** The left trim loop stops at the first non-blank character. */
  lemma {:induction false} TrimLeftAt(s: string, start: nat)
    requires start <= |s|
    requires forall m :: 0 <= m < start ==> IsBlank(s[m])
    requires start == |s| || !IsBlank(s[start])
    ensures TrimFront(s) == s[start..]
    decreases start
  {
    if start > 0 {
      TrimLeftAt(s[1..], start - 1);
      assert s[1..][start - 1..] == s[start..];
    }
  }

  /** The right trim loop stops at the last non-blank character. */
  lemma {:induction false} TrimRightAt(s: string, end: nat)
    requires end <= |s|
    requires forall m :: end <= m < |s| ==> IsBlank(s[m])
    requires end == 0 || !IsBlank(s[end - 1])
    ensures TrimBack(s) == s[..end]
    decreases |s| - end
  {
    if end < |s| {
      TrimRightAt(s[..|s| - 1], end);
      assert s[..|s| - 1][..end] == s[..end];
    }
  }

  /** The hand-written trim of `splitAndTrim`: spaces and tabs off the front,
      then off the back. */
  method TrimBlanks(piece: string) returns (t: string)
    ensures t == Trim(piece)
  {
    var start := 0;
    var end := |piece|;
    while start < end && IsBlank(piece[start])
      invariant start <= end == |piece|
      invariant forall m :: 0 <= m < start ==> IsBlank(piece[m])
    {
      start := start + 1;
    }
    while start < end && IsBlank(piece[end - 1])
      invariant start <= end <= |piece|
      invariant start == |piece| || !IsBlank(piece[start])
      invariant forall m :: end <= m < |piece| ==> IsBlank(piece[m])
    {
      end := end - 1;
    }
    t := piece[start..end];
    TrimBoth(piece, start, end);
  }

  /** The two trim loops of `splitAndTrim` compute `Trim`. */
  lemma TrimBoth(piece: string, start: nat, end: nat)
    requires start <= end <= |piece|
    requires forall m :: 0 <= m < start ==> IsBlank(piece[m])
    requires start == |piece| || !IsBlank(piece[start])
    requires forall m :: end <= m < |piece| ==> IsBlank(piece[m])
    requires end == start || !IsBlank(piece[end - 1])
    ensures piece[start..end] == Trim(piece)
  {
    var front := piece[start..];
    assert TrimFront(piece) == front by {
      TrimLeftAt(piece, start);
    }
    assert TrimBack(front) == piece[start..end] by {
      BlankTail(piece, start, end);
      TrimRightAt(front, end - start);
    }
  }

  /** The blanks after `end` stay blanks once the first `start` characters are cut off. */
  lemma BlankTail(piece: string, start: nat, end: nat)
    requires start <= end <= |piece|
    requires forall m :: end <= m < |piece| ==> IsBlank(piece[m])
    requires end == start || !IsBlank(piece[end - 1])
    ensures forall m :: end - start <= m < |piece[start..]| ==> IsBlank(piece[start..][m])
    ensures end - start == 0 || !IsBlank(piece[start..][end - start - 1])
    ensures piece[start..][..end - start] == piece[start..end]
  {
  }

  /** The inner loop of `splitAndTrim`: from `i`, the position of the next
      separator, or the end of `s`. */
  method ScanToSep(s: string, sep: string, i: nat) returns (j: nat)
    requires i <= |s|
    ensures i <= j <= |s|
    ensures forall m :: i <= m < j ==> !IsSep(s[m], sep)
    ensures j < |s| ==> IsSep(s[j], sep)
  {
    j := i;
    while j < |s| && [s[j]] != sep
      invariant i <= j <= |s|
      invariant forall m :: i <= m < j ==> !IsSep(s[m], sep)
    {
      SepTest(s[j], sep);
      j := j + 1;
    }
    if j < |s| {
      SepTest(s[j], sep);
    }
  }

  /** One turn of the outer loop, in terms of `Pieces`. */
  lemma PiecesStep(s: string, sep: string, i: nat, j: nat)
    requires i <= j <= |s|
    requires forall m :: i <= m < j ==> !IsSep(s[m], sep)
    requires j < |s| ==> IsSep(s[j], sep)
    ensures j == |s| ==> Pieces(s[i..], sep) == Keep(s[i..j])
    ensures j < |s| ==> Pieces(s[i..], sep) == Keep(s[i..j]) + Pieces(s[j + 1..], sep)
  {
    var rest := s[i..];
    assert rest[..j - i] == s[i..j];
    if j == |s| {
      assert rest == s[i..j];
      PiecesNoSep(rest, sep);
    } else {
      assert rest[j - i + 1..] == s[j + 1..];
      PiecesAtSep(rest, sep, j - i);
    }
  }

  lemma Append<T>(a: seq<T>, b: seq<T>, c: seq<T>)
    ensures a + (b + c) == (a + b) + c
  {
  }

  /** The outer loop's invariant survives one turn. */
  lemma Advance(s: string, sep: string, i: nat, j: nat, prior: seq<string>, t: string)
    requires i <= j <= |s|
    requires forall m :: i <= m < j ==> !IsSep(s[m], sep)
    requires j < |s| ==> IsSep(s[j], sep)
    requires prior + Pieces(s[i..], sep) == Pieces(s, sep)
    requires t == Trim(s[i..j])
    ensures j == |s| ==> (if t != "" then prior + [t] else prior) == Pieces(s, sep)
    ensures j < |s| ==> |sep| == 1 && (if t != "" then prior + [t] else prior) + Pieces(s[j + 1..], sep) == Pieces(s, sep)
  {
    PiecesStep(s, sep, i, j);
    var kept := Keep(s[i..j]);
    assert kept == (if t == "" then [] else [t]);
    var result := if t != "" then prior + [t] else prior;
    assert result == prior + kept;
    if j == |s| {
      assert Pieces(s[i..], sep) == kept;
    } else {
      assert Pieces(s[i..], sep) == kept + Pieces(s[j + 1..], sep);
      Append(prior, kept, Pieces(s[j + 1..], sep));
    }
  }

  /** One turn of the outer loop of `splitAndTrim`: scan to the next
      separator, trim the piece, keep it if anything is left, and step past the
      separator; `last` when the scan reached the end of `s`. */
  method Turn(s: string, sep: string, i: nat, prior: seq<string>) returns (result: seq<string>, next: nat, last: bool)
    requires i <= |s|
    requires prior + Pieces(s[i..], sep) == Pieces(s, sep)
    ensures last ==> result == Pieces(s, sep)
    ensures !last ==> i < next <= |s| && result + Pieces(s[next..], sep) == Pieces(s, sep)
  {
    var j := ScanToSep(s, sep, i);
    var t := TrimBlanks(s[i..j]);
    Advance(s, sep, i, j, prior, t);
    result := prior;
    if t != "" {
      result := result + [t];
    }
    last := j == |s|;
    next := j + |sep|;
    if !last {
      assert s[next..] == s[j + 1..];
    }
  }

  /** `splitAndTrim`: the outer loop walks from separator to separator, each
      piece is trimmed, and empty pieces are dropped. */
  method SplitAndTrim(s: string, sep: string) returns (result: seq<string>)
    ensures result == Pieces(s, sep)
  {
    ghost var whole := Pieces(s, sep);
    result := [];
    var i := 0;
    assert s[i..] == s;
    while i < |s|
      invariant i <= |s|
      invariant result + Pieces(s[i..], sep) == whole
      decreases |s| - i
    {
      var last;
      result, i, last := Turn(s, sep, i, result);
      if last {
        return;
      }
    }
    assert s[i..] == [];
    PiecesOfEmpty(sep);
  }

  /** An entry `parseOrigins` keeps. */
  predicate Filled(x: string) {
    x != ""
  }

  /** The filter of `parseOrigins`: the non-empty entries, in order. */
  method DropEmpty(xs: seq<string>) returns (result: seq<string>)
    ensures forall k :: 0 <= k < |result| ==> result[k] != ""
    ensures |result| <= |xs|
    ensures (forall k :: 0 <= k < |xs| ==> xs[k] != "") ==> result == xs
    ensures result == Collections.Filter(xs, Filled)
  {
    result := [];
    var k := 0;
    while k < |xs|
      invariant k <= |xs|
      invariant result == Collections.Filter(xs[..k], Filled)
    {
      assert xs[..k + 1] == xs[..k] + [xs[k]];
      Collections.FilterSnocKeeps(xs[..k], xs[k], Filled);
      if Filled(xs[k]) {
        result := result + [xs[k]];
      }
      k := k + 1;
    }
    assert xs[..k] == xs;
    Collections.FilterAll(xs, Filled);
  }

  /** Every piece is non-empty, so the filter keeps them all. */
  lemma PiecesNonEmpty(s: string)
    ensures forall k :: 0 <= k < |Pieces(s, Comma)| ==> Pieces(s, Comma)[k] != ""
    ensures forall k :: 0 <= k < |Pieces(s, Comma)| ==> Clean(Pieces(s, Comma)[k]) && ',' !in Pieces(s, Comma)[k]
  {
    PiecesClean(s, Comma);
  }

  /** `parseOrigins`: the default origin for an empty setting, otherwise every
      non-empty trimmed entry, in order. */
  method ParseOrigins(origins: string) returns (result: seq<string>)
    ensures origins == "" ==> result == [DefaultOrigin]
    ensures origins != "" ==> result == Pieces(origins, Comma)
    ensures origins != "" ==> forall k :: 0 <= k < |result| ==> Clean(result[k]) && ',' !in result[k]
  {
    if origins == "" {
      return [DefaultOrigin];
    }
    var pieces := SplitAndTrim(origins, Comma);
    PiecesNonEmpty(origins);
    result := DropEmpty(pieces);
  }

  /** Entries joined with a one-character separator. */
  function Joined(xs: seq<string>, c: char): string
  {
    if |xs| == 0 then ""
    else if |xs| == 1 then xs[0]
    else xs[0] + [c] + Joined(xs[1..], c)
  }

  /** Splitting what was joined gives the entries back, in order, when each is
      clean and free of the separator. */
  lemma {:induction false} PiecesOfJoined(xs: seq<string>, c: char)
    requires forall k :: 0 <= k < |xs| ==> Clean(xs[k]) && c !in xs[k]
    ensures Pieces(Joined(xs, c), [c]) == xs
    decreases |xs|
  {
    if |xs| == 0 {
      assert Pieces("", [c]) == Keep("");
    } else if |xs| == 1 {
      TrimOfClean(xs[0]);
      assert IndexOf(xs[0], c).None?;
    } else {
      var x := xs[0];
      var s := Joined(xs, c);
      assert s == x + [c] + Joined(xs[1..], c);
      assert IndexOf(s, c) == Some(|x|) by {
        assert s[|x|] == c;
        assert s[..|x|] == x;
      }
      assert s[..|x|] == x;
      assert s[|x| + 1..] == Joined(xs[1..], c);
      TrimOfClean(x);
      PiecesOfJoined(xs[1..], c);
    }
  }

  /** A single clean entry without a comma is parsed to itself. */
  lemma SingleOrigin(x: string)
    requires Clean(x) && ',' !in x
    ensures Pieces(x, Comma) == [x]
  {
    PiecesOfJoined([x], ',');
  }
}
