/** The resumable Knuth-Morris-Pratt step shared by the contains matchers of src/lql_json_scan.c. */
module Kmp {

  predicate IsSuffix(p: string, s: string) { |p| <= |s| && s[|s| - |p|..] == p }

  ghost predicate Occurs(needle: string, s: string) {
    exists i, j :: 0 <= i <= j <= |s| && s[i..j] == needle
  }

  /** k is a proper prefix of the needle that the input so far ends with. */
  predicate Candidate(needle: string, s: string, k: nat) {
    k < |needle| && IsSuffix(needle[..k], s)
  }

  /** pos is the longest proper prefix of the needle that the input so far ends with. */
  ghost predicate Longest(needle: string, s: string, pos: nat) {
    && Candidate(needle, s, pos)
    && forall k :: pos < k ==> !Candidate(needle, s, k)
  }

  /** failure[k - 1] is the length of the longest proper border of the needle's first k bytes. */
  ghost predicate FailureTable(needle: string, failure: seq<nat>) {
    |failure| == |needle| && Borders(needle, failure)
  }

  /** A table that is filled for the first |failure| prefixes. */
  ghost predicate Borders(needle: string, failure: seq<nat>) {
    && |failure| <= |needle|
    && forall k :: 0 <= k < |failure| ==> Border(needle, k + 1, failure[k])
  }

  ghost predicate Border(needle: string, k: nat, b: nat)
    requires k <= |needle|
  {
    && b < k && IsSuffix(needle[..b], needle[..k])
    && forall q :: b < q < k ==> !IsSuffix(needle[..q], needle[..k])
  }

  /** Two suffixes of one string: the shorter ends the longer. */
  lemma SuffixOfSuffix(a: string, b: string, s: string)
    requires IsSuffix(a, s) && IsSuffix(b, s) && |a| <= |b|
    ensures IsSuffix(a, b)
  {
    assert b[|b| - |a|..] == s[|s| - |b|..][|b| - |a|..] == s[|s| - |a|..];
  }

  lemma SuffixTransitive(a: string, b: string, s: string)
    requires IsSuffix(a, b) && IsSuffix(b, s)
    ensures IsSuffix(a, s)
  {
    assert s[|s| - |a|..] == s[|s| - |b|..][|b| - |a|..];
  }

  lemma SuffixSnoc(a: string, s: string, c: char)
    ensures IsSuffix(a + [c], s + [c]) <==> IsSuffix(a, s)
  {
    if |a| <= |s| {
      assert (s + [c])[|s| - |a|..] == s[|s| - |a|..] + [c];
      if IsSuffix(a + [c], s + [c]) {
        assert s[|s| - |a|..] == (s[|s| - |a|..] + [c])[..|a|] == (a + [c])[..|a|] == a;
      }
    }
  }

  lemma SuffixLast(a: string, s: string)
    requires IsSuffix(a, s) && |a| > 0
    ensures a[|a| - 1] == s[|s| - 1]
  {
    assert a[|a| - 1] == s[|s| - |a|..][|a| - 1];
  }

  /** A nonempty prefix of the needle ends s + [c] exactly when it is one longer than one that ends s. */
  lemma ExtendedSuffix(needle: string, s: string, c: char, k: nat)
    requires k < |needle|
    ensures IsSuffix(needle[..k + 1], s + [c]) <==> IsSuffix(needle[..k], s) && needle[k] == c
  {
    assert needle[..k + 1] == needle[..k] + [needle[k]];
    if needle[k] == c {
      SuffixSnoc(needle[..k], s, c);
    } else if IsSuffix(needle[..k + 1], s + [c]) {
      SuffixLast(needle[..k + 1], s + [c]);
    }
  }

  /** Falling back along the failure table loses no candidate that the next byte extends. */
  lemma FallBack(needle: string, failure: seq<nat>, s: string, c: char, p: nat)
    requires Borders(needle, failure) && p <= |failure|
    requires 0 < p && Candidate(needle, s, p) && needle[p] != c
    requires forall k :: p < k < |needle| && Candidate(needle, s, k) ==> needle[k] != c
    ensures failure[p - 1] < p && Candidate(needle, s, failure[p - 1])
    ensures forall k :: failure[p - 1] < k < |needle| && Candidate(needle, s, k) ==> needle[k] != c
  {
    var b := failure[p - 1];
    assert Border(needle, p - 1 + 1, b);
    SuffixTransitive(needle[..b], needle[..p], s);
    forall k | b < k < |needle| && Candidate(needle, s, k) ensures needle[k] != c {
      if k < p {
        SuffixOfSuffix(needle[..k], needle[..p], s);
      }
    }
  }

  /** src/lql_json_scan.c:2216-2225, one byte: the new position and whether the needle just ended here. */
  method Step(needle: string, failure: seq<nat>, ghost s: string, pos: nat, c: char) returns (next: nat, hit: bool)
    requires needle != "" && FailureTable(needle, failure) && Longest(needle, s, pos)
    ensures Longest(needle, s + [c], next)
    ensures hit <==> IsSuffix(needle, s + [c])
  {
    next := pos;
    while next != 0 && c != needle[next]
      invariant Candidate(needle, s, next)
      invariant forall k :: next < k < |needle| && Candidate(needle, s, k) ==> needle[k] != c
    {
      FallBack(needle, failure, s, c, next);
      next := failure[next - 1];
    }
    Advance(needle, s, c, next);
    if c == needle[next] {
      next := next + 1;
    }
    hit := next == |needle|;
    if hit {
      WholeNeedle(needle, failure, s + [c]);
      next := failure[next - 1];
    }
  }

  /** The longest prefix that ends s + [c], the whole needle included. */
  lemma Advance(needle: string, s: string, c: char, p: nat)
    requires needle != "" && Candidate(needle, s, p) && (p == 0 || needle[p] == c)
    requires forall k :: p < k < |needle| && Candidate(needle, s, k) ==> needle[k] != c
    ensures var next := if needle[p] == c then p + 1 else p;
      && IsSuffix(needle[..next], s + [c])
      && (next < |needle| ==> Longest(needle, s + [c], next))
      && (IsSuffix(needle, s + [c]) <==> next == |needle|)
  {
    ExtendedSuffix(needle, s, c, p);
    forall j | p + 1 < j <= |needle| ensures !IsSuffix(needle[..j], s + [c]) {
      ExtendedSuffix(needle, s, c, j - 1);
      assert needle[..j - 1 + 1] == needle[..j];
    }
    if needle[p] != c {
      ExtendedSuffix(needle, s, c, 0);
    }
    assert needle[..|needle|] == needle;
    assert needle[..0] == "";
  }

  lemma WholeNeedle(needle: string, failure: seq<nat>, s: string)
    requires needle != "" && FailureTable(needle, failure) && IsSuffix(needle, s)
    ensures Longest(needle, s, failure[|needle| - 1])
  {
    var b := failure[|needle| - 1];
    assert Border(needle, |needle| - 1 + 1, b);
    assert needle[..|needle|] == needle;
    SuffixTransitive(needle[..b], needle, s);
    forall k | b < k && Candidate(needle, s, k) ensures false {
      SuffixOfSuffix(needle[..k], needle, s);
    }
  }

  lemma OccursSnoc(needle: string, s: string, c: char)
    requires needle != ""
    ensures Occurs(needle, s + [c]) <==> Occurs(needle, s) || IsSuffix(needle, s + [c])
  {
    if Occurs(needle, s) {
      var i, j :| 0 <= i <= j <= |s| && s[i..j] == needle;
      SliceSnoc(s, c, i, j);
    }
    if IsSuffix(needle, s + [c]) {
      assert (s + [c])[|s| + 1 - |needle|..|s| + 1] == (s + [c])[|s| + 1 - |needle|..];
    }
    if Occurs(needle, s + [c]) {
      var i, j :| 0 <= i <= j <= |s + [c]| && (s + [c])[i..j] == needle;
      SliceSnoc(s, c, i, j);
    }
  }

  lemma SliceSnoc(s: string, c: char, i: nat, j: nat)
    requires i <= j <= |s| + 1
    ensures j <= |s| ==> (s + [c])[i..j] == s[i..j]
    ensures j == |s| + 1 ==> (s + [c])[i..j] == (s + [c])[|s| + 1 - (j - i)..]
  {
  }

  lemma NothingYet(needle: string)
    requires needle != ""
    ensures Longest(needle, "", 0) && !Occurs(needle, "")
  {
    assert needle[..0] == "";
  }

  // ---------------------------------------------------------------- building the table

  /** A proper prefix ends needle[1..i] exactly when it is a proper border of needle[..i]. */
  lemma BorderIsCandidate(needle: string, i: nat, q: nat)
    requires 1 <= i <= |needle|
    ensures Candidate(needle, needle[1..i], q) <==> q < i && IsSuffix(needle[..q], needle[..i])
  {
    if q < i {
      assert needle[1..i][i - 1 - q..] == needle[i - q..i] == needle[..i][i - q..];
    }
  }

  lemma LongestIsBorder(needle: string, i: nat, matched: nat)
    requires 1 <= i <= |needle|
    ensures Longest(needle, needle[1..i], matched) <==> Border(needle, i, matched)
  {
    forall q: nat ensures Candidate(needle, needle[1..i], q) <==> q < i && IsSuffix(needle[..q], needle[..i]) {
      BorderIsCandidate(needle, i, q);
    }
  }

  lemma LongestIs(needle: string, s: string, pos: nat)
    ensures Longest(needle, s, pos) ==> Candidate(needle, s, pos) && forall k :: pos < k < |needle| ==> !Candidate(needle, s, k)
  {
  }

  lemma FirstBorder(needle: string)
    requires needle != ""
    ensures Border(needle, 1, 0)
  {
    assert needle[..0] == "";
  }

  lemma CandidateIsShorter(needle: string, i: nat, q: nat)
    requires 1 <= i < |needle| && Candidate(needle, needle[1..i], q)
    ensures q < i
  {
  }

  /** src/lql_stream_flat_eq.c:453-485: the table of the longest proper borders. */
  method BuildFailure(needle: string) returns (failure: seq<nat>)
    requires needle != ""
    ensures FailureTable(needle, failure)
  {
    hide IsSuffix, Longest;
    failure := [0];
    var matched: nat := 0;
    FirstBorder(needle);
    for i := 1 to |needle|
      invariant |failure| == i && Borders(needle, failure)
      invariant matched < i && Border(needle, i, matched)
    {
      ghost var s := needle[1..i];
      LongestIsBorder(needle, i, matched);
      LongestIs(needle, s, matched);
      while matched != 0 && needle[i] != needle[matched]
        invariant matched < i && Candidate(needle, s, matched)
        invariant forall k :: matched < k < |needle| && Candidate(needle, s, k) ==> needle[k] != needle[i]
      {
        FallBack(needle, failure, s, needle[i], matched);
        matched := failure[matched - 1];
      }
      Advance(needle, s, needle[i], matched);
      CandidateIsShorter(needle, i, matched);
      if needle[i] == needle[matched] {
        matched := matched + 1;
      }
      assert needle[1..i + 1] == s + [needle[i]];
      LongestIsBorder(needle, i + 1, matched);
      failure := failure + [matched];
    }
  }
}
