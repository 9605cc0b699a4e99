/** Mutation expressions (src/lql_direct_actions.c): paths, plain clauses, and nested brace shorthand. */
module MutationPath {
  predicate IsSpace(c: char) { c == ' ' || c == '\t' || c == '\r' || c == '\n' }

  function TrimLeft(s: string): (r: string)
    ensures |r| <= |s| && (|r| > 0 ==> !IsSpace(r[0]))
  {
    if |s| > 0 && IsSpace(s[0]) then TrimLeft(s[1..]) else s
  }

  function TrimRight(s: string): (r: string)
    ensures r <= s && (|r| > 0 ==> !IsSpace(r[|r| - 1]))
    ensures forall i :: |r| <= i < |s| ==> IsSpace(s[i])
  {
    if |s| > 0 && IsSpace(s[|s| - 1]) then TrimRight(s[..|s| - 1]) else s
  }

  /** src/lql_direct_actions.c:14-22. */
  function Trim(s: string): (r: string)
    ensures |r| <= |s|
  {
    TrimRight(TrimLeft(s))
  }

  predicate Trimmed(s: string) { |s| > 0 ==> !IsSpace(s[0]) && !IsSpace(s[|s| - 1]) }

  lemma TrimmedStays(s: string)
    requires Trimmed(s)
    ensures Trim(s) == s
  {
  }

  lemma TrimIsTrimmed(s: string)
    ensures Trimmed(Trim(s)) && TrimLeft(Trim(s)) == Trim(s)
  {
    var t := TrimLeft(s);
    assert |TrimRight(t)| > 0 ==> TrimRight(t)[0] == t[0];
  }

  // ---------------------------------------------------------------- paths

  function Find(s: string, from: nat, c: char): (r: nat)
    requires from <= |s|
    ensures from <= r <= |s| && (r < |s| ==> s[r] == c) && forall i :: from <= i < r ==> s[i] != c
    decreases |s| - from
  {
    if from == |s| || s[from] == c then from else Find(s, from + 1, c)
  }

  /** The pieces between slashes. */
  function Pieces(s: string): (r: seq<string>)
    ensures |r| > 0
    decreases |s|
  {
    var slash := Find(s, 0, '/');
    if slash == |s| then [s] else [s[..slash]] + Pieces(s[slash + 1..])
  }

  /** ~0 is a tilde and ~1 a slash. */
  function Decode(s: string): (r: string)
    ensures |r| <= |s|
  {
    if |s| == 0 then ""
    else if s[0] == '~' && |s| > 1 && (s[1] == '0' || s[1] == '1') then [if s[1] == '0' then '~' else '/'] + Decode(s[2..])
    else [s[0]] + Decode(s[1..])
  }

  predicate IsWildcard(s: string) { s == "[]" || s == "*" || s == "**" || s == "..." }

  /** Trailing [] suffixes are segments of their own. */
  function Suffixed(s: string): seq<string>
    decreases |s|
  {
    if |s| > 2 && s[|s| - 2..] == "[]" then Suffixed(s[..|s| - 2]) + ["[]"] else [s]
  }

  function PieceSegments(piece: string): seq<string> {
    var decoded := Decode(piece);
    if |decoded| > 2 && !IsWildcard(decoded) then Suffixed(decoded) else [decoded]
  }

  function AllSegments(pieces: seq<string>): seq<string> {
    if |pieces| == 0 then [] else PieceSegments(pieces[0]) + AllSegments(pieces[1..])
  }

  /** A path is a slash and more; its text without the space around it. */
  predicate IsPath(text: string) { |Trim(text)| > 1 && Trim(text)[0] == '/' }

  function SegmentsOf(s: string): seq<string> { AllSegments(Pieces(s)) }

  function Segments(text: string): seq<string>
    requires IsPath(text)
  {
    SegmentsOf(Trim(text)[1..])
  }

  lemma {:induction false} FindIs(s: string, from: nat, c: char, at: nat)
    requires from <= at <= |s| && (forall i :: from <= i < at ==> s[i] != c) && (at < |s| ==> s[at] == c)
    ensures Find(s, from, c) == at
    decreases at - from
  {
    if from < at {
      FindIs(s, from + 1, c, at);
    }
  }

  lemma {:induction false} PiecesJoin(a: string, b: string)
    ensures Pieces(a + "/" + b) == Pieces(a) + Pieces(b)
    decreases |a|
  {
    hide Find;
    var slash := Find(a, 0, '/');
    FirstPiece(a, b);
    if slash < |a| {
      PiecesJoin(a[slash + 1..], b);
      Regroup([a[..slash]], Pieces(a[slash + 1..]), Pieces(b));
    }
  }

  lemma FirstPiece(a: string, b: string)
    ensures var s, slash := a + "/" + b, Find(a, 0, '/');
            Find(s, 0, '/') == slash < |s| && s[..slash] == a[..slash] && (slash == |a| ==> a[..slash] == a)
            && s[slash + 1..] == if slash == |a| then b else a[slash + 1..] + "/" + b
  {
    hide Find;
    var slash := Find(a, 0, '/');
    JoinBytes(a, b);
    FindIs(a + "/" + b, 0, '/', slash);
    if slash < |a| {
      JoinAt(a, b, slash);
    } else {
      JoinEnd(a, b);
    }
  }

  lemma JoinBytes(a: string, b: string)
    ensures |a + "/" + b| == |a| + 1 + |b| && (a + "/" + b)[|a|] == '/'
    ensures forall i :: 0 <= i < |a| ==> (a + "/" + b)[i] == a[i]
  {
  }

  lemma JoinAt(a: string, b: string, slash: nat)
    requires slash < |a|
    ensures (a + "/" + b)[..slash] == a[..slash] && (a + "/" + b)[slash + 1..] == a[slash + 1..] + "/" + b
  {
  }

  lemma JoinEnd(a: string, b: string)
    ensures (a + "/" + b)[..|a|] == a[..|a|] == a && (a + "/" + b)[|a| + 1..] == b
  {
  }

  lemma {:induction false} AllSegmentsJoin(a: seq<string>, b: seq<string>)
    ensures AllSegments(a + b) == AllSegments(a) + AllSegments(b)
    decreases |a|
  {
    if |a| == 0 {
      assert a + b == b;
    } else {
      assert (a + b)[1..] == a[1..] + b;
      AllSegmentsJoin(a[1..], b);
      assert PieceSegments(a[0]) + (AllSegments(a[1..]) + AllSegments(b)) == PieceSegments(a[0]) + AllSegments(a[1..]) + AllSegments(b);
    }
  }

  /** Writing one path after another joins their segments. */
  lemma SegmentsJoin(p: string, q: string)
    requires IsPath(p) && IsPath(q) && Trimmed(p) && Trimmed(q)
    ensures IsPath(p + q) && Segments(p + q) == Segments(p) + Segments(q)
  {
    hide Pieces, AllSegments, Trim;
    TrimmedStays(p);
    TrimmedStays(q);
    TrimmedStays(p + q);
    assert (p + q)[1..] == p[1..] + "/" + q[1..];
    PiecesJoin(p[1..], q[1..]);
    AllSegmentsJoin(Pieces(p[1..]), Pieces(q[1..]));
  }

  /** The first c at or after from. */
  method Seek(s: string, from: nat, c: char) returns (at: nat)
    requires from <= |s|
    ensures at == Find(s, from, c)
  {
    at := from;
    while at < |s| && s[at] != c
      invariant from <= at <= |s| && Find(s, at, c) == Find(s, from, c)
    {
      at := at + 1;
    }
  }

  /** src/lql_direct_actions.c:224-339. */
  method ParsePath(text: string) returns (ok: bool, segments: seq<string>)
    ensures ok <==> IsPath(text)
    ensures ok ==> segments == Segments(text)
  {
    hide Trim, Find, Pieces, AllSegments, PieceSegments;
    var t := Trim(text);
    segments := [];
    if |t| == 0 || t[0] != '/' || |t| == 1 {
      return false, [];
    }
    var part := 1;
    var slash := Seek(t, part, '/');
    while slash < |t|
      invariant 1 <= part <= slash <= |t| && slash == Find(t, part, '/')
      invariant SegmentsOf(t[1..]) == segments + SegmentsOf(t[part..])
      decreases |t| - part
    {
      var more := DecodePiece(t[part..slash]);
      PieceAt(t, part, slash);
      Regroup(segments, more, SegmentsOf(t[slash + 1..]));
      segments := segments + more;
      part := slash + 1;
      slash := Seek(t, part, '/');
    }
    var more := DecodePiece(t[part..slash]);
    PieceAt(t, part, slash);
    return true, segments + more;
  }

  lemma Regroup<T>(a: seq<T>, b: seq<T>, c: seq<T>)
    ensures a + (b + c) == a + b + c
  {
  }

  lemma PieceAt(t: string, part: nat, slash: nat)
    requires part <= |t| && slash == Find(t, part, '/')
    ensures SegmentsOf(t[part..]) == PieceSegments(t[part..slash]) + (if slash == |t| then [] else SegmentsOf(t[slash + 1..]))
  {
    hide PieceSegments, Find, AllSegments;
    var s := t[part..];
    RestBytes(t, part);
    FindIs(s, 0, '/', slash - part);
    if slash == |t| {
      RestEnd(t, part);
      SegmentsCons(s, []);
    } else {
      RestAt(t, part, slash);
      SegmentsCons(t[part..slash], Pieces(t[slash + 1..]));
    }
  }

  lemma RestBytes(t: string, part: nat)
    requires part <= |t|
    ensures |t[part..]| == |t| - part && forall i :: 0 <= i < |t| - part ==> t[part..][i] == t[part + i]
  {
  }

  lemma RestAt(t: string, part: nat, slash: nat)
    requires part <= slash < |t|
    ensures t[part..][..slash - part] == t[part..slash] && t[part..][slash - part + 1..] == t[slash + 1..]
  {
  }

  lemma RestEnd(t: string, part: nat)
    requires part <= |t|
    ensures t[part..] == t[part..|t|]
  {
  }

  lemma SegmentsCons(piece: string, rest: seq<string>)
    ensures AllSegments([piece] + rest) == PieceSegments(piece) + AllSegments(rest)
    ensures AllSegments([piece]) == PieceSegments(piece) && AllSegments([]) == []
  {
    hide PieceSegments;
    assert ([piece] + rest)[1..] == rest && [piece][1..] == [];
    assert PieceSegments(piece) + [] == PieceSegments(piece);
  }

  method DecodePiece(segment: string) returns (segments: seq<string>)
    ensures segments == PieceSegments(segment)
  {
    hide Suffixed, Decode;
    var decoded := Untilde(segment);
    segments := SuffixSegments(decoded);
  }

  /** src/lql_direct_actions.c:255-266. */
  method Untilde(segment: string) returns (decoded: string)
    ensures decoded == Decode(segment)
  {
    hide Decode;
    decoded := "";
    var i := 0;
    assert segment[0..] == segment;
    while i < |segment|
      invariant 0 <= i <= |segment| && decoded + Decode(segment[i..]) == Decode(segment)
    {
      DecodeStep(segment, i);
      if segment[i] == '~' && i + 1 < |segment| && (segment[i + 1] == '0' || segment[i + 1] == '1') {
        decoded := decoded + [if segment[i + 1] == '0' then '~' else '/'];
        i := i + 2;
      } else {
        decoded := decoded + [segment[i]];
        i := i + 1;
      }
    }
    assert Decode(segment[i..]) == "" by { DecodeNothing(segment); }
  }

  lemma DecodeNothing(s: string)
    ensures Decode(s[|s|..]) == ""
  {
  }

  lemma DecodeStep(s: string, i: nat)
    requires i < |s|
    ensures Decode(s[i..]) == if s[i] == '~' && i + 1 < |s| && (s[i + 1] == '0' || s[i + 1] == '1')
                              then [if s[i + 1] == '0' then '~' else '/'] + Decode(s[i + 2..])
                              else [s[i]] + Decode(s[i + 1..])
  {
    assert s[i..][1..] == s[i + 1..];
    if i + 1 < |s| {
      assert s[i..][2..] == s[i + 2..];
    }
  }

  /** src/lql_direct_actions.c:267-331. */
  method SuffixSegments(decoded: string) returns (segments: seq<string>)
    ensures segments == (if |decoded| > 2 && !IsWildcard(decoded) then Suffixed(decoded) else [decoded])
  {
    hide Suffixed, Wildcards;
    var base, suffixes := |decoded|, 0;
    assert decoded[..base] == decoded && Wildcards(0) == [] by { NoWildcards(); }
    if |decoded| > 2 && !IsWildcard(decoded) {
      while base > 2 && decoded[base - 2] == '[' && decoded[base - 1] == ']'
        invariant 0 < base <= |decoded| && Suffixed(decoded) == Suffixed(decoded[..base]) + Wildcards(suffixes)
      {
        SuffixStep(decoded, base, suffixes);
        base, suffixes := base - 2, suffixes + 1;
      }
      SuffixEnd(decoded, base);
    }
    segments := [decoded[..base]] + Wildcards(suffixes);
  }

  lemma NoWildcards()
    ensures Wildcards(0) == []
  {
  }

  lemma SuffixStep(s: string, base: nat, n: nat)
    requires 2 < base <= |s| && s[base - 2] == '[' && s[base - 1] == ']'
    ensures Suffixed(s[..base]) + Wildcards(n) == Suffixed(s[..base - 2]) + Wildcards(n + 1)
  {
    var t := s[..base];
    assert t[|t| - 2..] == "[]" && t[..|t| - 2] == s[..base - 2];
    Regroup(Suffixed(s[..base - 2]), ["[]"], Wildcards(n));
  }

  lemma SuffixEnd(s: string, base: nat)
    requires base <= |s| && !(base > 2 && s[base - 2] == '[' && s[base - 1] == ']')
    ensures Suffixed(s[..base]) == [s[..base]]
  {
    var t := s[..base];
    if base > 2 {
      assert t[base - 2..][0] == s[base - 2] && t[base - 2..][1] == s[base - 1];
    }
  }

  function Wildcards(n: nat): seq<string> { if n == 0 then [] else ["[]"] + Wildcards(n - 1) }
}
