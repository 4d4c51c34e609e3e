/** Byte-string helpers standing for Go's `strings` package on ASCII input.
    A `string` here is a sequence of chars, each char standing for one byte. */
module Strings {
  import opened Wrappers

  /** The ASCII part of `unicode.IsSpace`: space, \t, \n, \v, \f and \r. */
  predicate IsSpace(c: char) {
    c == ' ' || c == '\t' || c == '\n' || c == '\r' || c as int == 0x0B || c as int == 0x0C
  }

  predicate IsUpper(c: char) { 'A' <= c <= 'Z' }
  predicate IsLower(c: char) { 'a' <= c <= 'z' }
  predicate IsDigit(c: char) { '0' <= c <= '9' }

  /** ASCII lower-casing of one character. */
  function LowerChar(c: char): (r: char)
    ensures IsUpper(c) ==> IsLower(r) && r as int == c as int + 32
    ensures !IsUpper(c) ==> r == c
    ensures !IsUpper(r)
    ensures IsSpace(r) <==> IsSpace(c)
  {
    if IsUpper(c) then (c as int + 32) as char else c
  }

  /** `strings.ToLower` restricted to ASCII: every upper-case letter moves to
      its lower-case partner 32 code points up, and every other character
      stays where it is. */
  function ToLower(s: string): (r: string)
    ensures |r| == |s|
    ensures forall i :: 0 <= i < |s| && IsUpper(s[i]) ==> IsLower(r[i]) && r[i] as int == s[i] as int + 32
    ensures forall i :: 0 <= i < |s| && !IsUpper(s[i]) ==> r[i] == s[i]
    ensures forall i :: 0 <= i < |s| ==> !IsUpper(r[i])
  {
    seq(|s|, i requires 0 <= i < |s| => LowerChar(s[i]))
  }

  lemma ToLowerIdempotent(s: string)
    ensures ToLower(ToLower(s)) == ToLower(s)
  {
  }

  /** Drops the longest prefix whose characters satisfy `p`. */
  function TrimLeftWhere(s: string, p: char -> bool): (r: string)
    ensures |r| <= |s| && r == s[|s| - |r|..]
    ensures forall i :: 0 <= i < |s| - |r| ==> p(s[i])
    ensures |r| > 0 ==> !p(r[0])
    decreases |s|
  {
    if |s| > 0 && p(s[0]) then TrimLeftWhere(s[1..], p) else s
  }

  /** Drops the longest suffix whose characters satisfy `p`. */
  function TrimRightWhere(s: string, p: char -> bool): (r: string)
    ensures |r| <= |s| && r == s[..|r|]
    ensures forall i :: |r| <= i < |s| ==> p(s[i])
    ensures |r| > 0 ==> !p(r[|r| - 1])
    decreases |s|
  {
    if |s| > 0 && p(s[|s| - 1]) then TrimRightWhere(s[..|s| - 1], p) else s
  }

  /** `s[i..j]` is what remains of `s` once the maximal runs of characters
      satisfying `p` are cut from both ends: everything outside the slice
      satisfies `p`, and a non-empty slice starts and ends with a character
      that does not. */
  predicate Trimmed(s: string, i: int, j: int, p: char -> bool)
  {
    && 0 <= i <= j <= |s|
    && (forall k :: 0 <= k < i ==> p(s[k]))
    && (forall k :: j <= k < |s| ==> p(s[k]))
    && (i < j ==> !p(s[i]) && !p(s[j - 1]))
  }

  /** Drops both the leading and the trailing run of characters satisfying `p`. */
  function TrimWhere(s: string, p: char -> bool): (r: string)
    ensures |r| <= |s|
    ensures |r| > 0 ==> !p(r[0]) && !p(r[|r| - 1])
    ensures (forall k :: 0 <= k < |s| ==> !p(s[k])) ==> r == s
  {
    TrimRightWhere(TrimLeftWhere(s, p), p)
  }

  /** TrimWhere keeps exactly a slice that `Trimmed` describes. */
  lemma TrimWhereSlice(s: string, p: char -> bool)
    ensures exists i, j :: Trimmed(s, i, j, p) && TrimWhere(s, p) == s[i..j]
  {
    var l := TrimLeftWhere(s, p);
    TrimmedFromParts(s, l, TrimRightWhere(l, p), p);
  }

  /** A left trim `l` of `s` followed by a right trim `r` of `l` is a `Trimmed` slice of `s`. */
  lemma TrimmedFromParts(s: string, l: string, r: string, p: char -> bool)
    requires |l| <= |s| && l == s[|s| - |l|..]
    requires forall k :: 0 <= k < |s| - |l| ==> p(s[k])
    requires |l| > 0 ==> !p(l[0])
    requires |r| <= |l| && r == l[..|r|]
    requires forall k :: |r| <= k < |l| ==> p(l[k])
    requires |r| > 0 ==> !p(r[|r| - 1])
    ensures Trimmed(s, |s| - |l|, |s| - |l| + |r|, p) && r == s[|s| - |l|..|s| - |l| + |r|]
  {
    var i := |s| - |l|;
    var j := i + |r|;
    forall k | j <= k < |s|
      ensures p(s[k])
    {
      assert s[k] == l[k - i];
    }
    if i < j {
      assert s[i] == l[0];
      assert s[j - 1] == r[|r| - 1];
    }
  }

  /** Two `Trimmed` slices of the same string are the same text. */
  lemma TrimmedUnique(s: string, i: int, j: int, i': int, j': int, p: char -> bool)
    requires Trimmed(s, i, j, p) && Trimmed(s, i', j', p)
    ensures s[i..j] == s[i'..j']
  {
    // One slice empty makes every character satisfy `p`, so the other is
    // empty too; both non-empty, neither may start or end inside the other's
    // margin.
    if i < j && i' == j' {
      assert false;
    } else if i' < j' && i == j {
      assert false;
    } else if i < j && (i' != i || j' != j) {
      assert false;
    }
  }

  /** The slice `Trimmed` describes is exactly TrimWhere's result. */
  lemma TrimWhereUnique(s: string, i: int, j: int, p: char -> bool)
    requires Trimmed(s, i, j, p)
    ensures TrimWhere(s, p) == s[i..j]
  {
    TrimWhereSlice(s, p);
    var i', j' :| Trimmed(s, i', j', p) && TrimWhere(s, p) == s[i'..j'];
    TrimmedUnique(s, i, j, i', j', p);
  }

  /** A string with no character satisfying `p` at either end is its own trim. */
  lemma TrimWhereOfTrimmed(s: string, p: char -> bool)
    requires |s| > 0 ==> !p(s[0]) && !p(s[|s| - 1])
    ensures TrimWhere(s, p) == s
  {
  }

  /** `strings.TrimSpace` on ASCII whitespace. */
  function TrimSpace(s: string): (r: string)
    ensures |r| <= |s|
    ensures |r| > 0 ==> !IsSpace(r[0]) && !IsSpace(r[|r| - 1])
  {
    TrimWhere(s, IsSpace)
  }

  /** True iff every character of `s` is whitespace; then and only then TrimSpace gives "". */
  lemma TrimSpaceEmpty(s: string)
    ensures TrimSpace(s) == "" <==> forall k :: 0 <= k < |s| ==> IsSpace(s[k])
  {
    var l := TrimLeftWhere(s, IsSpace);
    if l != "" {
      assert !IsSpace(s[|s| - |l|]);
    }
  }

  /** Left-trimming a concatenation: the left part vanishes entirely or keeps the right part whole. */
  lemma {:induction false} TrimLeftAppend(a: string, b: string, p: char -> bool)
    ensures TrimLeftWhere(a + b, p) == (if TrimLeftWhere(a, p) == "" then TrimLeftWhere(b, p) else TrimLeftWhere(a, p) + b)
    decreases |a|
  {
    if |a| > 0 {
      assert (a + b)[0] == a[0];
      if p(a[0]) {
        assert (a + b)[1..] == a[1..] + b;
        TrimLeftAppend(a[1..], b, p);
      }
    } else {
      assert a + b == b;
    }
  }

  /** Right-trimming drops a trailing run of `p`-characters. */
  lemma {:induction false} TrimRightPadded(s: string, pad: string, p: char -> bool)
    requires forall i :: 0 <= i < |pad| ==> p(pad[i])
    ensures TrimRightWhere(s + pad, p) == TrimRightWhere(s, p)
    decreases |pad|
  {
    if |pad| > 0 {
      var t := s + pad;
      assert t[|t| - 1] == pad[|pad| - 1];
      assert t[..|t| - 1] == s + pad[..|pad| - 1];
      TrimRightPadded(s, pad[..|pad| - 1], p);
    } else {
      assert s + pad == s;
    }
  }

  /** Whitespace on either side does not change what TrimSpace keeps. */
  lemma TrimSpacePadded(left: string, s: string, right: string)
    requires forall i :: 0 <= i < |left| ==> IsSpace(left[i])
    requires forall i :: 0 <= i < |right| ==> IsSpace(right[i])
    ensures TrimSpace(left + s + right) == TrimSpace(s)
  {
    assert left + s + right == left + (s + right);
    TrimLeftAppend(left, s + right, IsSpace);
    assert TrimLeftWhere(left, IsSpace) == "";
    TrimLeftAppend(s, right, IsSpace);
    var l := TrimLeftWhere(s, IsSpace);
    if l == "" {
      assert TrimLeftWhere(right, IsSpace) == "";
    } else {
      TrimRightPadded(l, right, IsSpace);
    }
  }

  /** Lower-casing commutes with left-trimming whitespace. */
  lemma {:induction false} TrimLeftLower(s: string)
    ensures TrimLeftWhere(ToLower(s), IsSpace) == ToLower(TrimLeftWhere(s, IsSpace))
    decreases |s|
  {
    if |s| > 0 {
      var l := ToLower(s);
      assert l[0] == LowerChar(s[0]);
      if IsSpace(s[0]) {
        assert l[1..] == ToLower(s[1..]);
        TrimLeftLower(s[1..]);
      }
    }
  }

  /** Lower-casing commutes with right-trimming whitespace. */
  lemma {:induction false} TrimRightLower(s: string)
    ensures TrimRightWhere(ToLower(s), IsSpace) == ToLower(TrimRightWhere(s, IsSpace))
    decreases |s|
  {
    if |s| > 0 {
      var n := |s| - 1;
      var l := ToLower(s);
      assert IsSpace(l[n]) <==> IsSpace(s[n]) by { assert l[n] == LowerChar(s[n]); }
      if IsSpace(s[n]) {
        var init := s[..n];
        assert l[..n] == ToLower(init) by {
          forall k | 0 <= k < n ensures l[k] == ToLower(init)[k] { assert init[k] == s[k]; }
        }
        assert TrimRightWhere(l, IsSpace) == TrimRightWhere(l[..n], IsSpace);
        assert TrimRightWhere(s, IsSpace) == TrimRightWhere(init, IsSpace);
        TrimRightLower(init);
      } else {
        assert TrimRightWhere(l, IsSpace) == l;
        assert TrimRightWhere(s, IsSpace) == s;
      }
    }
  }

  lemma TrimSpaceLower(s: string)
    ensures TrimSpace(ToLower(s)) == ToLower(TrimSpace(s))
  {
    TrimLeftLower(s);
    TrimRightLower(TrimLeftWhere(s, IsSpace));
  }

  predicate HasPrefix(s: string, prefix: string) {
    |prefix| <= |s| && s[..|prefix|] == prefix
  }

  predicate HasSuffix(s: string, suffix: string) {
    |suffix| <= |s| && s[|s| - |suffix|..] == suffix
  }

  /** `strings.TrimPrefix`: removes `prefix` once when present. */
  function TrimPrefix(s: string, prefix: string): (r: string)
    ensures HasPrefix(s, prefix) ==> prefix + r == s
    ensures !HasPrefix(s, prefix) ==> r == s
  {
    if HasPrefix(s, prefix) then s[|prefix|..] else s
  }

  /** `strings.TrimSuffix`: removes `suffix` once when present. */
  function TrimSuffix(s: string, suffix: string): (r: string)
    ensures HasSuffix(s, suffix) ==> r + suffix == s
    ensures !HasSuffix(s, suffix) ==> r == s
  {
    if HasSuffix(s, suffix) then s[..|s| - |suffix|] else s
  }

  /** `strings.IndexByte`: the first position of `c`, if any. */
  function IndexOf(s: string, c: char): (r: Option<nat>)
    ensures r.Some? ==> r.value < |s| && s[r.value] == c && c !in s[..r.value]
    ensures r.None? <==> c !in s
  {
    if c !in s then None
    else if s[0] == c then Some(0)
    else
      var k := IndexOf(s[1..], c).value;
      assert s[1..][..k] == s[1..k + 1];
      Some(k + 1)
  }

  /** `strings.LastIndex` for a one-character needle: the last position of `c`, if any. */
  function LastIndexOf(s: string, c: char): (r: Option<nat>)
    ensures r.Some? ==> r.value < |s| && s[r.value] == c && c !in s[r.value + 1..]
    ensures r.None? <==> c !in s
  {
    if c !in s then None
    else if s[|s| - 1] == c then Some(|s| - 1)
    else
      var k := LastIndexOf(s[..|s| - 1], c).value;
      assert s[k + 1..] == s[..|s| - 1][k + 1..] + [s[|s| - 1]];
      Some(k)
  }

  /** `strings.Split` with a one-character separator. */
  function Split(s: string, c: char): (r: seq<string>)
    ensures |r| >= 1
    ensures forall k :: 0 <= k < |r| ==> c !in r[k]
    decreases |s|
  {
    match IndexOf(s, c)
    case None => [s]
    case Some(k) => [s[..k]] + Split(s[k + 1..], c)
  }

  /** `strings.Join` with a one-character separator: the inverse of Split. */
  function Join(parts: seq<string>, c: char): string
  {
    if |parts| == 0 then ""
    else if |parts| == 1 then parts[0]
    else parts[0] + [c] + Join(parts[1..], c)
  }

  /** Joining the pieces of a split with the separator gives back the input. */
  lemma {:induction false} SplitJoin(s: string, c: char)
    ensures Join(Split(s, c), c) == s
    decreases |s|
  {
    match IndexOf(s, c)
    case None =>
    case Some(k) =>
      var rest := Split(s[k + 1..], c);
      SplitJoin(s[k + 1..], c);
      var parts := [s[..k]] + rest;
      assert Split(s, c) == parts;
      assert |parts| >= 2 && parts[0] == s[..k] && parts[1..] == rest;
      assert Join(parts, c) == s[..k] + [c] + s[k + 1..];
      assert s == s[..k] + [c] + s[k + 1..];
  }

  /** The first piece of `strings.Split(s, c)` is everything before the first `c`. */
  lemma SplitHead(s: string, c: char)
    ensures Split(s, c)[0] == (match IndexOf(s, c) case None => s case Some(k) => s[..k])
  {
  }

  /** `strings.SplitN(s, sep, 2)` for a one-character separator: one or two parts. */
  function SplitFirst(s: string, c: char): (r: seq<string>)
    ensures 1 <= |r| <= 2
    ensures |r| == 1 <==> c !in s
    ensures |r| == 1 ==> r[0] == s
    ensures |r| == 2 ==> r[0] + [c] + r[1] == s && c !in r[0]
  {
    match IndexOf(s, c)
    case None => [s]
    case Some(k) =>
      assert s == s[..k] + [c] + s[k + 1..];
      [s[..k], s[k + 1..]]
  }
}
