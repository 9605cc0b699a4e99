/** The pointer texts of paths (src/lql_direct_actions.c:213-350): every list of names has one, and it is read as that list. */
module PointerText {
  import opened MutationPath

  /** A name with its tildes and slashes escaped (section 3 of RFC 6901). */
  function Escaped(name: string): string {
    if |name| == 0 then ""
    else (if name[0] == '~' then "~0" else if name[0] == '/' then "~1" else [name[0]]) + Escaped(name[1..])
  }

  lemma {:induction false} EscapedDecodes(name: string)
    ensures Decode(Escaped(name)) == name && '/' !in Escaped(name) && |Escaped(name)| >= |name|
  {
    if |name| > 0 {
      var rest := Escaped(name[1..]);
      EscapedDecodes(name[1..]);
      var first := Escaped(name)[..|Escaped(name)| - |rest|];
      if name[0] == '~' {
        assert Escaped(name) == "~0" + rest && Escaped(name)[2..] == rest;
      } else if name[0] == '/' {
        assert Escaped(name) == "~1" + rest && Escaped(name)[2..] == rest;
      } else {
        assert Escaped(name) == [name[0]] + rest && Escaped(name)[1..] == rest;
      }
    }
  }

  /** Names that no suffix is split from. */
  predicate IsWhole(name: string) { |name| <= 2 || name[|name| - 2..] != "[]" }

  lemma WholeIsOneSegment(name: string)
    requires IsWhole(name)
    ensures PieceSegments(Escaped(name)) == [name]
  {
    EscapedDecodes(name);
  }

  /** The names with a slash between each two. */
  function Pointer(names: seq<string>): string
    requires |names| > 0
  {
    if |names| == 1 then Escaped(names[0]) else Escaped(names[0]) + "/" + Pointer(names[1..])
  }

  lemma {:induction false} NoSlashOnePiece(s: string)
    requires '/' !in s
    ensures Pieces(s) == [s]
  {
    FindIs(s, 0, '/', |s|);
  }

  lemma {:induction false} PointerReads(names: seq<string>)
    requires |names| > 0 && forall i :: 0 <= i < |names| ==> IsWhole(names[i])
    ensures SegmentsOf(Pointer(names)) == names
    decreases |names|
  {
    hide PieceSegments, Pieces, IsWhole;
    assert IsWhole(names[0]);
    EscapedDecodes(names[0]);
    NoSlashOnePiece(Escaped(names[0]));
    WholeIsOneSegment(names[0]);
    SegmentsCons(Escaped(names[0]), []);
    if |names| > 1 {
      PiecesJoin(Escaped(names[0]), Pointer(names[1..]));
      AllSegmentsJoin([Escaped(names[0])], Pieces(Pointer(names[1..])));
      PointerReads(names[1..]);
      assert [names[0]] + names[1..] == names;
    } else {
      assert names == [names[0]];
    }
  }

  /** The four characters of white space around a path. */
  predicate Blank(s: string) { forall i :: 0 <= i < |s| ==> s[i] as int in {9, 10, 13, 32} }

  predicate Solid(c: char) { c as int !in {9, 10, 13, 32} }

  lemma {:induction false} LeftPadding(a: string, core: string)
    requires Blank(a) && |core| > 0 && Solid(core[0])
    ensures TrimLeft(a + core) == core
  {
    if |a| == 0 {
      assert a + core == core;
    } else {
      assert (a + core)[1..] == a[1..] + core;
      LeftPadding(a[1..], core);
    }
  }

  lemma {:induction false} RightPadding(core: string, b: string)
    requires Blank(b) && |core| > 0 && Solid(core[|core| - 1])
    ensures TrimRight(core + b) == core
    decreases |b|
  {
    if |b| == 0 {
      assert core + b == core;
    } else {
      assert (core + b)[..|core + b| - 1] == core + b[..|b| - 1];
      RightPadding(core, b[..|b| - 1]);
    }
  }

  /** Any list of whole names but the single empty one has a path text, white space around it or not, that reads as that list. */
  lemma PathReadsAsItsNames(a: string, names: seq<string>, b: string)
    requires Blank(a) && Blank(b) && |names| > 0 && |Pointer(names)| > 0 && Solid(Pointer(names)[|Pointer(names)| - 1])
    requires forall i :: 0 <= i < |names| ==> IsWhole(names[i])
    ensures IsPath(a + ("/" + Pointer(names)) + b) && Segments(a + ("/" + Pointer(names)) + b) == names
  {
    hide Pointer, SegmentsOf, IsWhole;
    var t := "/" + Pointer(names);
    assert a + t + b == a + (t + b);
    LeftPadding(a, t + b);
    RightPadding(t, b);
    assert t[1..] == Pointer(names);
    PointerReads(names);
  }

  /** Nothing else is a path. */
  lemma OthersAreNoPaths(a: string, core: string, b: string)
    requires Blank(a) && Blank(b) && |core| > 0 && Solid(core[0]) && Solid(core[|core| - 1]) && (core[0] != '/' || |core| == 1)
    ensures !IsPath(a + core + b)
  {
    assert a + core + b == a + (core + b);
    LeftPadding(a, core + b);
    RightPadding(core, b);
  }

  /** Brackets repeated. */
  function Brackets(n: nat): string { if n == 0 then "" else Brackets(n - 1) + "[]" }

  function BracketSegments(n: nat): seq<string> { if n == 0 then [] else BracketSegments(n - 1) + ["[]"] }

  lemma {:induction false} BracketsAreSuffixes(name: string, n: nat)
    requires |name| > 0 && IsWhole(name)
    ensures Suffixed(name + Brackets(n)) == [name] + BracketSegments(n)
  {
    if n == 0 {
      assert name + Brackets(0) == name;
    } else {
      var s := name + Brackets(n);
      assert s == name + Brackets(n - 1) + "[]";
      assert s[..|s| - 2] == name + Brackets(n - 1) && s[|s| - 2..] == "[]";
      BracketsAreSuffixes(name, n - 1);
      assert [name] + BracketSegments(n - 1) + ["[]"] == [name] + BracketSegments(n);
    }
  }

  /** Brackets behind a name are segments of their own. */
  lemma BracketsAreSegments(name: string, n: nat)
    requires |name| > 0 && IsWhole(name) && n > 0
    ensures PieceSegments(Escaped(name + Brackets(n))) == [name] + BracketSegments(n)
  {
    hide Decode;
    var s := name + Brackets(n);
    EscapedDecodes(s);
    BracketsAreSuffixes(name, n);
    assert s == name + Brackets(n - 1) + "[]";
    assert s[|s| - 1] == ']' && |s| > 2;
  }
}
