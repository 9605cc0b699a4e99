/** Normalized fields, and the selectors that their own text gives back unchanged. */
module SelectorFields {
  import opened Wrappers
  import opened Utf8
  import opened SelectorText
  import opened SelectorRoundTrip
  import opened MutationPath
  import S = Selectors

  // ---------------------------------------------------------------- UTF-8

  lemma DropJoin(a: string, b: string, n: nat)
    requires n <= |a|
    ensures (a + b)[n..] == a[n..] + b
  {
  }

  lemma CutTwice(s: string, w: nat, i: nat)
    requires w <= i <= |s|
    ensures s[w..][..i - w] == s[w..i] == s[..i][w..] && s[w..][i - w..] == s[i..]
  {
  }

  lemma {:induction false} Utf8Joins(a: string, b: string)
    requires IsUtf8(a) && IsUtf8(b)
    ensures IsUtf8(a + b)
    decreases |a|
  {
    hide UnitAt;
    if |a| == 0 {
      assert a + b == b;
    } else {
      var u := UnitAt(a, 0).value;
      Utf8Joins(a[|u|..], b);
      UnitStays(a, b);
      DropJoin(a, b, |u|);
    }
  }

  lemma UnitStays(a: string, b: string)
    requires |a| > 0 && UnitAt(a, 0).Some?
    ensures UnitAt(a + b, 0) == UnitAt(a, 0)
  {
    var w := |UnitAt(a, 0).value|;
    UnitWidth(UnitAt(a, 0).value);
    assert a[0] == UnitAt(a, 0).value[0];
    assert (a + b)[0..w] == a[0..w];
  }

  /** Before an ASCII byte a well-formed text can be cut. */
  lemma {:induction false} Utf8Cuts(s: string, i: nat)
    requires IsUtf8(s) && i <= |s| && (i < |s| ==> s[i] as int < 0x80)
    ensures IsUtf8(s[..i]) && IsUtf8(s[i..])
    decreases |s|
  {
    hide UnitAt;
    if i == 0 {
      assert s[0..] == s;
    } else {
      var w := |UnitAt(s, 0).value|;
      UnitIsBefore(s, i);
      Utf8Cuts(s[w..], i - w);
      CutTwice(s, w, i);
    }
  }

  lemma UnitIsBefore(s: string, i: nat)
    requires 0 < i <= |s| && UnitAt(s, 0).Some? && (i < |s| ==> s[i] as int < 0x80)
    ensures |UnitAt(s, 0).value| <= i && UnitAt(s[..i], 0) == UnitAt(s, 0)
  {
    var u := UnitAt(s, 0).value;
    var w := |u|;
    UnitWidth(u);
    assert forall j :: 0 <= j < w ==> s[j] == u[j];
    assert forall j :: 1 <= j < w ==> IsTail(u[j]);
    assert s[0..w] == s[..i][0..w];
  }

  /** Without its first byte, where that is ASCII. */
  lemma Utf8Tail(s: string)
    requires |s| > 0 && IsUtf8(s) && s[0] as int < 0x80
    ensures IsUtf8(s[1..])
  {
    assert UnitAt(s, 0).value == s[0..1];
  }

  // ---------------------------------------------------------------- normalized fields

  /** No segment of the text has a suffix to spread. */
  predicate Flat(g: string)
    decreases |g|
  {
    |g| == 0 ||
    var slash := Find(g, 0, '/');
    S.Spread(g[..slash]) == g[..slash] && (slash == |g| || Flat(g[slash + 1..]))
  }

  function Chop(g: string): string { if |g| > 0 && g[|g| - 1] == '/' then g[..|g| - 1] else g }

  /** Over flat text the walk only loses a last slash. */
  lemma {:induction false} FlatStays(out: string, g: string)
    requires |out| > 0 && Flat(g) && |g| > 0 && (|out| > 1 || g[0] != '/')
    ensures S.Assemble(out, g) == out + (if |out| > 1 then "/" else "") + Chop(g)
    decreases |g|
  {
    hide S.Spread, Find, Chop;
    var slash := Find(g, 0, '/');
    var next := out + (if |out| > 1 then "/" else "") + g[..slash];
    ChopAt(g, slash);
    if slash < |g| && slash + 1 < |g| {
      FlatStays(next, g[slash + 1..]);
      Regrouped(out + (if |out| > 1 then "/" else ""), g[..slash], Chop(g[slash + 1..]));
    }
  }

  lemma Regrouped(a: string, b: string, c: string)
    ensures a + b + "/" + c == a + (b + "/" + c)
  {
  }

  lemma ChopAt(g: string, slash: nat)
    requires slash == Find(g, 0, '/') && |g| > 0
    ensures slash == |g| ==> Chop(g) == g == g[..slash]
    ensures slash < |g| ==> Chop(g) == if slash + 1 == |g| then g[..slash] else g[..slash] + "/" + Chop(g[slash + 1..])
  {
    hide Find, Chop;
    if slash < |g| {
      assert g == g[..slash] + "/" + g[slash + 1..];
      ChopJoin(g[..slash], g[slash + 1..]);
    } else {
      NoSlash(g);
    }
  }

  lemma NoSlash(g: string)
    requires Find(g, 0, '/') == |g|
    ensures Chop(g) == g == g[..|g|]
  {
  }

  lemma ChopJoin(a: string, rest: string)
    ensures Chop(a + "/" + rest) == if |rest| == 0 then a else a + "/" + Chop(rest)
  {
    var s := a + "/" + rest;
    if |rest| == 0 {
      assert s[..|s| - 1] == a;
    } else {
      assert s[|s| - 1] == rest[|rest| - 1];
      assert s[..|s| - 1] == a + "/" + rest[..|rest| - 1];
    }
  }

  lemma {:induction false} FlatJoins(h: string, t: string)
    requires Flat(h) && Flat(t)
    ensures Flat(h + "/" + t)
    decreases |h|
  {
    hide S.Spread, Find;
    var slash := Find(h, 0, '/');
    SpreadNothing();
    PiecesOfJoin(h, t);
    if slash < |h| {
      FlatJoins(h[slash + 1..], t);
    }
  }

  lemma PiecesOfJoin(h: string, t: string)
    ensures var s, slash := h + "/" + t, Find(h, 0, '/');
            |s| > 0 && Find(s, 0, '/') == slash < |s| && s[..slash] == h[..slash]
            && s[slash + 1..] == if slash == |h| then t else h[slash + 1..] + "/" + t
  {
    hide Find;
    var slash := Find(h, 0, '/');
    FindIs(h + "/" + t, 0, '/', slash);
  }

  lemma {:induction false} SpreadIsFlat(p: string)
    requires '/' !in p
    ensures Flat(S.Spread(p)) && (|p| > 0 ==> |S.Spread(p)| > 0 && S.Spread(p)[0] == p[0])
    decreases |p|
  {
    hide Find, Flat;
    if |p| > 2 && p[|p| - 2..] == "[]" {
      var q := p[..|p| - 2];
      SpreadIsFlat(q);
      SegmentIsFlat("[]");
      FlatJoins(S.Spread(q), "[]");
      assert S.Spread(p) == S.Spread(q) + "/" + "[]";
    } else {
      SegmentIsFlat(p);
    }
  }

  lemma SegmentIsFlat(p: string)
    requires '/' !in p && S.Spread(p) == p
    ensures Flat(p)
  {
    hide S.Spread;
    FindIs(p, 0, '/', |p|);
    assert p[..|p|] == p;
  }

  /** src/lql_selector.c:361-419. */
  method NormalizePath(field: string) returns (normalized: Option<string>)
    ensures normalized == if S.IsPointer(field) then Some(S.Normalize(field)) else None
  {
    hide Find, S.Assemble, S.Spread;
    if |field| == 0 || field[0] != '/' {
      return None;
    }
    var out, seg := "/", 1;
    while seg < |field|
      invariant 1 <= seg <= |field| && S.Assemble(out, field[seg..]) == S.Normalize(field)
    {
      var slash := Seek(field, seg, '/');
      AssembleStep(out, field, seg, slash);
      out := AppendSegment(out, field[seg..slash]);
      if slash == |field| {
        return Some(out);
      }
      seg := slash + 1;
    }
    assert field[seg..] == "" && S.Assemble(out, "") == out by { AssembleNothing(out); }
    normalized := Some(out);
  }

  lemma AssembleNothing(out: string)
    ensures S.Assemble(out, "") == out
  {
  }

  /** One segment, its [] suffixes as segments of their own (src/lql_selector.c:384-410). */
  method AppendSegment(out: string, segment: string) returns (longer: string)
    ensures longer == out + (if |out| > 1 then "/" else "") + S.Spread(segment)
  {
    hide S.Spread;
    var base, count := Suffixes(segment);
    longer := out + (if |out| > 1 then "/" else "") + base;
    ghost var start := longer;
    var i := 0;
    assert start + "" == start;
    while i < count
      invariant i <= count && longer == start + Brackets(i)
    {
      longer := longer + "/[]";
      i := i + 1;
    }
  }

  function Brackets(n: nat): string { if n == 0 then "" else Brackets(n - 1) + "/[]" }

  /** A segment without its [] suffixes, and how many there were. */
  method Suffixes(segment: string) returns (base: string, count: nat)
    ensures S.Spread(segment) == base + Brackets(count)
  {
    hide S.Spread, Brackets;
    var len := |segment|;
    count := 0;
    assert segment[..len] == segment && Brackets(0) == "" by { NoBrackets(); }
    while len > 2 && segment[len - 2] == '[' && segment[len - 1] == ']'
      invariant len <= |segment| && S.Spread(segment) == S.Spread(segment[..len]) + Brackets(count)
    {
      SpreadStep(segment, len, count);
      len, count := len - 2, count + 1;
    }
    SpreadEnd(segment, len);
    base := segment[..len];
  }

  lemma NoBrackets()
    ensures Brackets(0) == ""
  {
  }

  lemma SpreadStep(segment: string, len: nat, count: nat)
    requires 2 < len <= |segment| && segment[len - 2] == '[' && segment[len - 1] == ']'
    ensures S.Spread(segment[..len]) + Brackets(count) == S.Spread(segment[..len - 2]) + Brackets(count + 1)
  {
    hide Brackets;
    var s := segment[..len];
    assert s[|s| - 2..] == "[]" && s[..|s| - 2] == segment[..len - 2];
    BracketsInFront(count);
    var t := S.Spread(segment[..len - 2]);
    assert t + "/[]" + Brackets(count) == t + ("/[]" + Brackets(count));
  }

  lemma SpreadEnd(segment: string, len: nat)
    requires len <= |segment| && !(len > 2 && segment[len - 2] == '[' && segment[len - 1] == ']')
    ensures S.Spread(segment[..len]) == segment[..len]
  {
    var s := segment[..len];
    if len > 2 {
      assert s[len - 2..][0] == segment[len - 2] && s[len - 2..][1] == segment[len - 1];
    }
  }

  lemma {:induction false} BracketsInFront(n: nat)
    ensures "/[]" + Brackets(n) == Brackets(n + 1)
  {
    if n > 0 {
      BracketsInFront(n - 1);
    }
  }

  lemma AssembleStep(out: string, field: string, seg: nat, slash: nat)
    requires seg < |field| && slash == Find(field, seg, '/')
    ensures var next := out + (if |out| > 1 then "/" else "") + S.Spread(field[seg..slash]);
            S.Assemble(out, field[seg..]) == if slash == |field| then next else S.Assemble(next, field[slash + 1..])
  {
    hide S.Spread, Find;
    var rest := field[seg..];
    FindIs(rest, 0, '/', slash - seg);
    assert rest[..slash - seg] == field[seg..slash];
    if slash < |field| {
      assert rest[slash - seg + 1..] == field[slash + 1..];
    }
  }

  predicate IsNormal(f: string) { |f| > 0 && f[0] == '/' && Flat(f[1..]) && (|f| > 1 ==> f[1] != '/') }

  lemma {:induction false} AssembleIsNormal(out: string, rest: string)
    requires IsNormal(out)
    ensures IsNormal(S.Assemble(out, rest))
    decreases |rest|
  {
    hide S.Spread, Flat;
    if |rest| > 0 {
      var slash := Find(rest, 0, '/');
      var next := out + (if |out| > 1 then "/" else "") + S.Spread(rest[..slash]);
      SpreadIsFlat(rest[..slash]);
      NextIsNormal(out, rest[..slash]);
      if slash < |rest| {
        AssembleIsNormal(next, rest[slash + 1..]);
      }
    }
  }

  lemma NextIsNormal(out: string, piece: string)
    requires IsNormal(out) && '/' !in piece
    ensures IsNormal(out + (if |out| > 1 then "/" else "") + S.Spread(piece))
  {
    hide S.Spread, Flat;
    SpreadIsFlat(piece);
    var t := S.Spread(piece);
    if |out| > 1 {
      FlatJoins(out[1..], t);
      assert (out + "/" + t)[1..] == out[1..] + "/" + t;
    } else {
      assert (out + "" + t)[1..] == t;
      assert |piece| == 0 ==> t == "" by { SpreadNothing(); }
    }
  }

  lemma SpreadNothing()
    ensures S.Spread("") == "" && Flat("")
  {
  }

  lemma NormalizeIsNormal(x: string)
    requires S.IsPointer(x)
    ensures IsNormal(S.Normalize(x))
  {
    SpreadNothing();
    AssembleIsNormal("/", x[1..]);
  }

  /** Normalizing a normalized field again changes it exactly when it ends in a slash. */
  lemma NormalizeTwice(f: string)
    requires IsNormal(f)
    ensures S.Normalize(f) == f <==> f == "/" || f[|f| - 1] != '/'
  {
    hide Flat, S.Spread;
    if |f| > 1 {
      FlatStays("/", f[1..]);
      assert f == "/" + f[1..];
    } else {
      assert f == "/" && f[1..] == "";
    }
  }

  // ---------------------------------------------------------------- fields stay plain

  lemma {:induction false} SpreadIsPlain(p: string)
    requires PlainText(p)
    ensures PlainText(S.Spread(p))
    decreases |p|
  {
    hide IsUtf8;
    if |p| > 2 && p[|p| - 2..] == "[]" {
      assert p[|p| - 2] == '[';
      Utf8Cuts(p, |p| - 2);
      SpreadIsPlain(p[..|p| - 2]);
      AsciiIsUtf8("/[]");
      Utf8Joins(S.Spread(p[..|p| - 2]), "/[]");
    }
  }

  lemma {:induction false} AssembleIsPlain(out: string, rest: string)
    requires PlainText(out) && PlainText(rest)
    ensures PlainText(S.Assemble(out, rest))
    decreases |rest|
  {
    hide IsUtf8, S.Spread;
    if |rest| > 0 {
      var slash := Find(rest, 0, '/');
      var sep := if |out| > 1 then "/" else "";
      Utf8Cuts(rest, slash);
      SpreadIsPlain(rest[..slash]);
      AsciiIsUtf8(sep);
      Utf8Joins(out, sep);
      Utf8Joins(out + sep, S.Spread(rest[..slash]));
      if slash < |rest| {
        Utf8Tail(rest[slash..]);
        assert rest[slash..][1..] == rest[slash + 1..];
        AssembleIsPlain(out + sep + S.Spread(rest[..slash]), rest[slash + 1..]);
      }
    }
  }

  lemma NormalizeIsField(x: string)
    requires PlainText(x) && S.IsPointer(x)
    ensures IsField(S.Normalize(x)) && IsNormal(S.Normalize(x))
  {
    hide IsUtf8, Flat, S.Assemble;
    AsciiIsUtf8("/");
    Utf8Tail(x);
    AssembleIsPlain("/", x[1..]);
    NormalizeIsNormal(x);
  }
}
