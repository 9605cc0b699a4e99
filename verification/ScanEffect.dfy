/** What reading a piece of a record adds to the hits, the compactness and the output, and how pieces compose. */
module ScanEffect {
  import opened Wrappers
  import opened Utf8
  import opened CaseFold
  import opened Terms
  import opened JsonSyntax
  import opened JsonParse
  import opened TextMatch
  import opened DateTerms
  import opened Query
  import opened NumberHits
  import opened Reader

  /** The accumulated results of a scan. */
  datatype Totals = Totals(hits: set<nat>, compact: bool, emitted: string)

  /** exact: the comparisons that found depends on are exact, so that found is what is added. */
  datatype Effect = Effect(found: set<nat>, tight: bool, text: string, exact: bool)

  predicate Applied(writing: bool, before: Totals, after: Totals, e: Effect) {
    && (e.exact ==> after.hits == before.hits + e.found)
    && after.compact == (before.compact && e.tight)
    && after.emitted == before.emitted + (if writing then e.text else "")
  }

  function Then(e: Effect, f: Effect): Effect {
    Effect(e.found + f.found, e.tight && f.tight, e.text + f.text, e.exact && f.exact)
  }

  const NOTHING := Effect({}, true, "", true)

  function Emits(text: string): Effect { Effect({}, true, text, true) }

  function Spaces(space: string): Effect { Effect({}, space == "", "", true) }

  function Hits(found: set<nat>): Effect { Effect(found, true, "", true) }

  lemma AppliedThen(writing: bool, a: Totals, b: Totals, c: Totals, e: Effect, f: Effect)
    requires Applied(writing, a, b, e) && Applied(writing, b, c, f)
    ensures Applied(writing, a, c, Then(e, f))
  {
    assert a.emitted + e.text + f.text == a.emitted + (e.text + f.text);
  }

  lemma ThenAssociates(e: Effect, f: Effect, g: Effect)
    ensures Then(Then(e, f), g) == Then(e, Then(f, g))
  {
    assert e.found + f.found + g.found == e.found + (f.found + g.found);
    assert e.text + f.text + g.text == e.text + (f.text + g.text);
  }

  lemma ThenNothing(e: Effect)
    ensures Then(NOTHING, e) == e == Then(e, NOTHING)
  {
    assert "" + e.text == e.text == e.text + "";
    assert {} + e.found == e.found == e.found + {};
  }

  // ---------------------------------------------------------------- the effect of a value

  ghost function FoundUnder(ranges: seq<CaseRange>, terms: seq<Term>, active: set<nat>, v: Value, depth: nat): set<nat> {
    set i | i in active && i < |terms| && Under(ranges, terms[i], v, depth)
  }

  ghost function FoundMembers(ranges: seq<CaseRange>, terms: seq<Term>, active: set<nat>, ms: Members, depth: nat, index: nat): set<nat> {
    set i | i in active && i < |terms| && UnderMembers(ranges, terms[i], ms, depth, index)
  }

  ghost function FoundMember(ranges: seq<CaseRange>, terms: seq<Term>, active: set<nat>, m: Member, depth: nat, index: nat): set<nat> {
    set i | i in active && i < |terms| && MemberHits(ranges, terms[i], m, depth, index)
  }

  /** A value that a path of depth segments leads to, seen by the terms whose next segment is below it. */
  ghost function ValueEffect(ranges: seq<CaseRange>, terms: seq<Term>, active: set<nat>, v: Value, depth: nat): Effect {
    Effect(FoundUnder(ranges, terms, active, v, depth), Tight(v), Print(Strip(v)), Exact(terms, v))
  }

  /** Members from the key or value of the first one on: the space before it is already behind. */
  ghost function MembersEffect(ranges: seq<CaseRange>, terms: seq<Term>, active: set<nat>, ms: Members, braces: bool,
                               depth: nat, index: nat): Effect {
    Effect(FoundMembers(ranges, terms, active, ms, depth, index), TightMembersAfterStart(ms),
           PrintMembers(StripMembers(ms), braces), ExactMembers(terms, ms))
  }

  predicate TightMembersAfterStart(ms: Members) {
    TightAfterStart(ms.member) && (ms.More? ==> TightMembers(ms.rest))
  }

  ghost function MemberEffect(ranges: seq<CaseRange>, terms: seq<Term>, active: set<nat>, m: Member, depth: nat, index: nat): Effect {
    Effect(FoundMember(ranges, terms, active, m, depth, index), TightAfterStart(m), PrintMember(StripMember(m)), Exact(terms, m.value))
  }

  /** The terms that a step to this member keeps. */
  ghost function Stepped(terms: seq<Term>, active: set<nat>, key: Key, depth: nat, index: nat): set<nat> {
    set i | i in active && i < |terms| && depth < |terms[i].path| && Step(terms[i].path[depth], key, index)
  }

  /** A value that a step led to: the terms whose path ends here, and the terms that go on below. */
  ghost function FoundAt(ranges: seq<CaseRange>, terms: seq<Term>, matches: set<nat>, v: Value, depth: nat): set<nat> {
    set i | i in matches && i < |terms| &&
            (if depth + 1 == |terms[i].path| then Satisfies(ranges, terms[i], v) else Under(ranges, terms[i], v, depth + 1))
  }

  ghost function MatchedEffect(ranges: seq<CaseRange>, terms: seq<Term>, matches: set<nat>, v: Value, depth: nat): Effect {
    Effect(FoundAt(ranges, terms, matches, v, depth), Tight(v), Print(Strip(v)), Exact(terms, v))
  }

  function KeyEffect(key: Key): Effect {
    Effect({}, TightKey(key), if key.NoKey? then "" else "\"" + CharsText(key.chars) + ":", true)
  }

  // ---------------------------------------------------------------- how they are made of each other

  lemma EmptyEffect(ranges: seq<CaseRange>, terms: seq<Term>, active: set<nat>, braces: bool, space: string, depth: nat)
    ensures ValueEffect(ranges, terms, active, Empty(braces, space), depth)
         == Then(Emits(Open(braces)), Then(Spaces(space), Emits(Closing(braces))))
  {
    assert Open(braces) + "" + Closing(braces) == Open(braces) + ("" + Closing(braces));
    assert FoundUnder(ranges, terms, active, Empty(braces, space), depth) == {};
  }

  lemma NestEffect(ranges: seq<CaseRange>, terms: seq<Term>, active: set<nat>, braces: bool, ms: Members, depth: nat)
    ensures ValueEffect(ranges, terms, active, Nest(braces, ms), depth)
         == Then(Emits(Open(braces)), Then(Spaces(ms.member.before), MembersEffect(ranges, terms, active, ms, braces, depth, 0)))
  {
    hide StripMember, UnderMembers, PrintMembers, TightAfterStart;
    var v := Nest(braces, ms);
    assert FoundUnder(ranges, terms, active, v, depth) == FoundMembers(ranges, terms, active, ms, depth, 0);
    MemberTight(ms.member);
    assert Open(braces) + ("" + PrintMembers(StripMembers(ms), braces)) == Open(braces) + PrintMembers(StripMembers(ms), braces);
  }

  lemma MemberTight(m: Member)
    ensures TightMember(m) <==> m.before == "" && TightAfterStart(m)
  {
  }

  lemma LastEffect(ranges: seq<CaseRange>, terms: seq<Term>, active: set<nat>, m: Member, braces: bool, depth: nat, index: nat)
    ensures MembersEffect(ranges, terms, active, One(m), braces, depth, index)
         == Then(MemberEffect(ranges, terms, active, m, depth, index), Emits(Closing(braces)))
  {
    hide StripMember, MemberHits, PrintMember, TightAfterStart;
    assert FoundMembers(ranges, terms, active, One(m), depth, index) == FoundMember(ranges, terms, active, m, depth, index) + {};
  }

  lemma MoreEffect(ranges: seq<CaseRange>, terms: seq<Term>, active: set<nat>, m: Member, rest: Members, braces: bool, depth: nat, index: nat)
    ensures MembersEffect(ranges, terms, active, More(m, rest), braces, depth, index)
         == Then(MemberEffect(ranges, terms, active, m, depth, index),
                 Then(Emits(","), Then(Spaces(rest.member.before), MembersEffect(ranges, terms, active, rest, braces, depth, index + 1))))
  {
    hide StripMember, MemberHits, PrintMember, TightAfterStart, ExactMembers;
    MembersAreTight(rest);
    ExactIs(terms, m, rest);
    var text := PrintMembers(StripMembers(rest), braces);
    assert PrintMember(StripMember(m)) + "," + text == PrintMember(StripMember(m)) + ("," + ("" + text));
    FoundMore(ranges, terms, active, m, rest, depth, index);
  }

  lemma ExactIs(terms: seq<Term>, m: Member, rest: Members)
    ensures ExactMembers(terms, More(m, rest)) <==> Exact(terms, m.value) && ExactMembers(terms, rest)
  {
  }

  lemma MembersAreTight(ms: Members)
    ensures TightMembers(ms) <==> ms.member.before == "" && TightMembersAfterStart(ms)
  {
    hide StripMember, TightAfterStart;
    MemberTight(ms.member);
  }

  lemma FoundMore(ranges: seq<CaseRange>, terms: seq<Term>, active: set<nat>, m: Member, rest: Members, depth: nat, index: nat)
    ensures FoundMembers(ranges, terms, active, More(m, rest), depth, index)
         == FoundMember(ranges, terms, active, m, depth, index) + FoundMembers(ranges, terms, active, rest, depth, index + 1)
  {
    hide MemberHits;
  }

  lemma MemberIs(ranges: seq<CaseRange>, terms: seq<Term>, active: set<nat>, m: Member, depth: nat, index: nat)
    ensures MemberEffect(ranges, terms, active, m, depth, index)
         == Then(KeyEffect(m.key), Then(MatchedEffect(ranges, terms, Stepped(terms, active, m.key, depth, index), m.value, depth),
                                        Spaces(m.after)))
  {
    hide Print, Strip, Exact, Satisfies, Under, Step;
    var key := PrintKey(StripMember(m).key);
    var text := Print(Strip(m.value));
    assert PrintMember(StripMember(m)) == "" + key + text + "";
    assert "" + key + text + "" == key + (text + "");
    KeyText(m);
    assert {} + (FoundAt(ranges, terms, Stepped(terms, active, m.key, depth, index), m.value, depth) + {})
        == FoundMember(ranges, terms, active, m, depth, index);
  }

  lemma KeyText(m: Member)
    ensures PrintKey(StripMember(m).key) == KeyEffect(m.key).text
  {
    if m.key.Named? {
      var q := "\"" + CharsText(m.key.chars);
      assert q + "" + ":" + "" == q + ":";
    }
  }

  // ---------------------------------------------------------------- hits at a value itself

  predicate Presence(kind: Kind) { kind == Exists || kind == ValuelessPresent }

  /** src/lql_json_scan.c:1856-1873: the term's path ends with the step at this depth. */
  predicate EndsAt(term: Term, depth: nat) { |term.path| == depth + 1 }

  /** What a value being there means, whatever it is: src/lql_json_scan.c:2581-2620. */
  function PresenceHits(terms: seq<Term>, matches: set<nat>, isNull: bool, depth: nat): set<nat> {
    set i | i in matches && i < |terms| && EndsAt(terms[i], depth)
            && (terms[i].kind == ValuelessPresent || (terms[i].kind == Exists && !isNull))
  }

  /** The other kinds. */
  ghost function KindHits(ranges: seq<CaseRange>, terms: seq<Term>, matches: set<nat>, v: Value, depth: nat): set<nat> {
    set i | i in matches && i < |terms| && EndsAt(terms[i], depth) && !Presence(terms[i].kind) && Satisfies(ranges, terms[i], v)
  }

  lemma ScalarFound(ranges: seq<CaseRange>, terms: seq<Term>, matches: set<nat>, v: Value, depth: nat)
    requires !v.Nest?
    ensures FoundAt(ranges, terms, matches, v, depth)
         == PresenceHits(terms, matches, v.Null?, depth) + KindHits(ranges, terms, matches, v, depth)
  {
  }

  /** Containers satisfy only presence; the other terms go on below, and no term that ends here does. */
  lemma ContainerFound(ranges: seq<CaseRange>, terms: seq<Term>, matches: set<nat>, below: set<nat>, v: Value, depth: nat)
    requires v.Nest? || v.Empty?
    requires below <= matches && forall i :: i in matches && i < |terms| && depth + 1 < |terms[i].path| ==> i in below
    ensures FoundAt(ranges, terms, matches, v, depth)
         == PresenceHits(terms, matches, false, depth) + FoundUnder(ranges, terms, below, v, depth + 1)
  {
    hide UnderMembers;
    forall i | i in matches && i < |terms|
      ensures i in FoundAt(ranges, terms, matches, v, depth)
         <==> i in PresenceHits(terms, matches, false, depth) + FoundUnder(ranges, terms, below, v, depth + 1)
    {
      ContainerSatisfies(ranges, terms[i], v);
      if |terms[i].path| <= depth + 1 {
        PathIsOver(ranges, terms[i], v, depth + 1);
      }
    }
  }

  lemma ContainerSatisfies(ranges: seq<CaseRange>, term: Term, v: Value)
    requires v.Nest? || v.Empty?
    ensures Satisfies(ranges, term, v) <==> Presence(term.kind)
  {
  }

  /** A path that has ended hits nothing below. */
  lemma {:induction false} PathIsOver(ranges: seq<CaseRange>, term: Term, v: Value, depth: nat)
    requires |term.path| <= depth
    ensures !Under(ranges, term, v, depth)
  {
    if v.Nest? {
      PathIsOverMembers(ranges, term, v.members, depth, 0);
    }
  }

  lemma {:induction false} PathIsOverMembers(ranges: seq<CaseRange>, term: Term, ms: Members, depth: nat, index: nat)
    requires |term.path| <= depth
    ensures !UnderMembers(ranges, term, ms, depth, index)
    decreases ms
  {
    if ms.More? {
      PathIsOverMembers(ranges, term, ms.rest, depth, index + 1);
    }
  }

  /** What the matcher finds in a text. */
  ghost function TextHits(ranges: seq<CaseRange>, terms: seq<Term>, active: set<nat>, text: string): set<nat> {
    set i | i in active && i < |terms| && Hit(ranges, terms[i], false, 0, text)
  }

  /** What the number comparisons find. */
  ghost function ComparedHits(terms: seq<Term>, numbers: set<nat>, text: string): set<nat> {
    set i | i in numbers && i < |terms| && NumberSatisfies(terms[i], text)
  }

  /** What the date terms find in a string. */
  ghost function DateHits(terms: seq<Term>, dated: set<nat>, text: string): set<nat> {
    set i | i in dated && i < |terms| && DateWithin(text, terms[i].dates)
  }

  /** The terms that look at strings, run over a decoded string. */
  lemma StringHits(ranges: seq<CaseRange>, terms: seq<Term>, matches: set<nat>, active: set<nat>, dated: set<nat>, chars: Chars, depth: nat)
    requires AreItems(chars) && forall i :: i in matches ==> i < |terms|
    requires active == set i | i in matches && EndsAt(terms[i], depth) && OnStrings(terms[i].kind)
    requires dated == set i | i in matches && EndsAt(terms[i], depth) && terms[i].kind == TemporalRange
    ensures KindHits(ranges, terms, matches, Text(chars), depth)
         == TextHits(ranges, terms, active, Meaning(chars)) + DateHits(terms, dated, Meaning(chars))
  {
    hide Hit, Meaning, DateWithin;
  }

  /** The terms that look at true and false. */
  lemma LiteralHits(ranges: seq<CaseRange>, terms: seq<Term>, matches: set<nat>, textual: set<nat>, scalar: set<nat>, v: Value, depth: nat)
    requires (v.Null? || v.Bool?) && forall i :: i in matches ==> i < |terms|
    requires textual == set i | i in matches && EndsAt(terms[i], depth) && Textual(terms[i].kind) && !v.Null?
    requires scalar == set i | i in matches && EndsAt(terms[i], depth) && terms[i].kind == (if v.Null? then NullEq else BoolEq)
    ensures KindHits(ranges, terms, matches, v, depth)
         == (set i | i in scalar && terms[i].value == Literal(v)) + TextHits(ranges, terms, textual, Literal(v))
  {
    hide Hit, Literal;
  }

  /** The terms that look at numbers. */
  lemma NumberKindHits(ranges: seq<CaseRange>, terms: seq<Term>, matches: set<nat>, textual: set<nat>, numbers: set<nat>, text: string, depth: nat)
    requires forall i :: i in matches ==> i < |terms|
    requires textual == set i | i in matches && EndsAt(terms[i], depth) && Textual(terms[i].kind)
    requires numbers == set i | i in matches && EndsAt(terms[i], depth) && OnNumbers(terms[i].kind)
    ensures KindHits(ranges, terms, matches, Number(text), depth)
         == ComparedHits(terms, numbers, text) + TextHits(ranges, terms, textual, text)
  {
    hide Hit, Ordered, InRange;
  }

  // ---------------------------------------------------------------- the turns of a members loop

  /** A scan succeeds on what parses; with a writer, and only then, arrays with elements may not open the last level. */
  predicate Accepts(ok: bool, parsed: bool, shallow: bool, writing: bool) {
    (ok ==> parsed && (writing ==> shallow)) && (parsed && shallow ==> ok)
  }

  predicate ShallowParsed(p: Option<Parsed>, depth: nat) { p.Some? && Shallow(p.value.value, depth) }

  /** Down to 127 levels the scanner, with or without a writer, accepts exactly what the skipper accepts. */
  lemma ScannerAcceptsWhatParses(s: string, pos: nat, depth: nat, ok: bool, writing: bool)
    requires pos <= |s| && Accepts(ok, ParseValue(s, pos, depth).Some?, ShallowParsed(ParseValue(s, pos, depth), depth), writing)
    requires ParseValue(s, pos, depth).Some? ==> depth + Nesting(ParseValue(s, pos, depth).value.value) < MAX_DEPTH
    ensures ok <==> ParseValue(s, pos, depth).Some?
  {
    hide ParseValue;
    if ParseValue(s, pos, depth).Some? {
      FewLevelsAreShallow(ParseValue(s, pos, depth).value.value, depth);
    }
  }

  predicate ShallowParsedMembers(p: Option<ParsedMembers>, depth: nat) { p.Some? && ShallowMembers(p.value.members, depth) }

  predicate ShallowParsedMember(p: Option<ParsedMember>, depth: nat) { p.Some? && Shallow(p.value.member.value, depth) }

  /** After the effect e, what is left to read completes the whole. */
  ghost predicate MembersRun(ranges: seq<CaseRange>, terms: seq<Term>, active: set<nat>, whole: Option<ParsedMembers>,
                             rest: Option<ParsedMembers>, e: Effect, braces: bool, depth: nat, index: nat, writing: bool) {
    && whole.Some? == rest.Some?
    && (whole.Some? ==>
          && whole.value.next == rest.value.next
          && Then(e, MembersEffect(ranges, terms, active, rest.value.members, braces, depth, index))
             == MembersEffect(ranges, terms, active, whole.value.members, braces, depth, 0)
          && (ShallowMembers(whole.value.members, depth + 1) ==> ShallowMembers(rest.value.members, depth + 1))
          && (writing && ShallowMembers(rest.value.members, depth + 1) ==> ShallowMembers(whole.value.members, depth + 1)))
  }

  lemma MembersRunStarts(ranges: seq<CaseRange>, terms: seq<Term>, active: set<nat>, whole: Option<ParsedMembers>, braces: bool,
                         depth: nat, writing: bool)
    ensures MembersRun(ranges, terms, active, whole, whole, NOTHING, braces, depth, 0, writing)
  {
    hide MembersEffect, ShallowMembers, Then;
    if whole.Some? {
      ThenNothing(MembersEffect(ranges, terms, active, whole.value.members, braces, depth, 0));
    }
  }

  /** No member: nothing parses. */
  lemma MembersRunStuck(ranges: seq<CaseRange>, terms: seq<Term>, active: set<nat>, whole: Option<ParsedMembers>, s: string, q: nat,
                        e: Effect, braces: bool, depth: nat, index: nat, writing: bool)
    requires q <= |s|
    requires MembersRun(ranges, terms, active, whole, ParseMembers(s, q, depth + 1, braces), e, braces, depth, index, writing)
    ensures var m := ParseMember(s, q, depth + 1, braces);
      && (m.None? ==> whole.None?)
      && (ShallowParsedMembers(whole, depth + 1) ==> ShallowParsedMember(m, depth + 1))
      && (m.Some? && !IsAt(s, m.value.next, Closing(braces)[0]) && !IsAt(s, m.value.next, ',') ==> whole.None?)
  {
    hide MembersEffect, Then, ParseMember, Shallow;
  }

  /** The last member. */
  lemma MembersRunEnds(ranges: seq<CaseRange>, terms: seq<Term>, active: set<nat>, whole: Option<ParsedMembers>, s: string, q: nat,
                       e: Effect, braces: bool, depth: nat, index: nat, writing: bool)
    requires q <= |s|
    requires MembersRun(ranges, terms, active, whole, ParseMembers(s, q, depth + 1, braces), e, braces, depth, index, writing)
    requires ParseMember(s, q, depth + 1, braces).Some?
    requires var m := ParseMember(s, q, depth + 1, braces).value;
      IsAt(s, m.next, Closing(braces)[0]) && (writing ==> Shallow(m.member.value, depth + 1))
    ensures var m := ParseMember(s, q, depth + 1, braces).value;
      && whole.Some? && whole.value.next == m.next + 1 && (writing ==> ShallowMembers(whole.value.members, depth + 1))
      && MembersEffect(ranges, terms, active, whole.value.members, braces, depth, 0)
         == Then(e, Then(MemberEffect(ranges, terms, active, m.member, depth, index), Emits(Closing(braces))))
  {
    hide MembersEffect, MemberEffect, Then, ParseMember, Shallow;
    LastEffect(ranges, terms, active, ParseMember(s, q, depth + 1, braces).value.member, braces, depth, index);
  }

  /** A member with another one after it. */
  lemma MembersRunGoesOn(ranges: seq<CaseRange>, terms: seq<Term>, active: set<nat>, whole: Option<ParsedMembers>, s: string, q: nat,
                         e: Effect, braces: bool, depth: nat, index: nat, writing: bool)
    requires q <= |s|
    requires MembersRun(ranges, terms, active, whole, ParseMembers(s, q, depth + 1, braces), e, braces, depth, index, writing)
    requires ParseMember(s, q, depth + 1, braces).Some?
    requires var m := ParseMember(s, q, depth + 1, braces).value;
      && IsAt(s, m.next, ',') && !IsAt(s, m.next, Closing(braces)[0]) && (writing ==> Shallow(m.member.value, depth + 1))
    ensures var m := ParseMember(s, q, depth + 1, braces).value;
      var space := s[m.next + 1..SpaceEnd(s, m.next + 1)];
      MembersRun(ranges, terms, active, whole, ParseMembers(s, m.next + 1, depth + 1, braces),
                 Then(e, Then(MemberEffect(ranges, terms, active, m.member, depth, index), Then(Emits(","), Spaces(space)))),
                 braces, depth, index + 1, writing)
  {
    hide MembersEffect, MemberEffect, Then, ParseMember, Shallow, SpaceEnd;
    var m := ParseMember(s, q, depth + 1, braces).value;
    var next := ParseMembers(s, m.next + 1, depth + 1, braces);
    if next.Some? {
      var rest := next.value.members;
      FirstSpace(s, m.next + 1, depth + 1, braces);
      MoreEffect(ranges, terms, active, m.member, rest, braces, depth, index);
      var a, b, c := MemberEffect(ranges, terms, active, m.member, depth, index), Emits(","), Spaces(rest.member.before);
      var d := MembersEffect(ranges, terms, active, rest, braces, depth, index + 1);
      ThenAssociates(e, Then(a, Then(b, c)), d);
      ThenAssociates(a, Then(b, c), d);
      ThenAssociates(b, c, d);
    }
  }

  lemma MemberStarts(s: string, q: nat, depth: nat, braces: bool)
    requires q <= |s|
    ensures ParseMember(s, q, depth, braces).Some? ==> SpaceEnd(s, q) < |s|
  {
    hide SpaceEnd, StringAt;
  }

  lemma FirstSpace(s: string, q: nat, depth: nat, braces: bool)
    requires q <= |s| && ParseMembers(s, q, depth, braces).Some?
    ensures ParseMembers(s, q, depth, braces).value.members.member.before == s[q..SpaceEnd(s, q)]
  {
    hide SpaceEnd, ParseKey, ParseValue;
  }

  // ---------------------------------------------------------------- masks of terms or capture keys

  /** Down to the depth, the active terms or keys are as they were. */
  ghost predicate PathsKept(now: seq<set<nat>>, was: seq<set<nat>>, depth: nat) {
    |now| == |was| == MAX_DEPTH && forall d :: 0 <= d < MAX_DEPTH && d <= depth ==> now[d] == was[d]
  }

  lemma PathsStart(now: seq<set<nat>>, depth: nat)
    requires |now| == MAX_DEPTH
    ensures PathsKept(now, now, depth)
  {
  }

  lemma PathsAt(now: seq<set<nat>>, was: seq<set<nat>>, depth: nat)
    requires PathsKept(now, was, depth) && depth < MAX_DEPTH
    ensures |now| == |was| == MAX_DEPTH && now[depth] == was[depth]
  {
  }

  lemma PathsKeep(now: seq<set<nat>>, mid: seq<set<nat>>, was: seq<set<nat>>, depth: nat)
    requires PathsKept(now, mid, depth) && PathsKept(mid, was, depth)
    ensures PathsKept(now, was, depth)
  {
  }

  lemma PathsKeepThrice(now: seq<set<nat>>, read: seq<set<nat>>, mid: seq<set<nat>>, was: seq<set<nat>>, depth: nat)
    requires PathsKept(now, read, depth) && PathsKept(read, mid, depth) && PathsKept(mid, was, depth)
    ensures PathsKept(now, was, depth)
  {
  }

  /** A mask with a bit for every term (src/lql_json_scan.c:5120-5122). */
  function AllBits(n: nat): (r: set<nat>)
    ensures forall i: int :: i in r <==> 0 <= i < n
  {
    if n == 0 then {} else AllBits(n - 1) + {n - 1}
  }
}
