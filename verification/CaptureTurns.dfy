/** How the spans of a scan are put together, turn by turn of a members loop and value by value. */
module CaptureTurns {
  import opened Wrappers
  import opened CaseFold
  import opened Terms
  import opened JsonSyntax
  import opened JsonParse
  import opened ScanEffect
  import opened TextMatch
  import opened Captures

  /** An effect moves the output by its text. */
  lemma OutputGrows(writing: bool, a: Totals, b: Totals, e: Effect)
    requires Applied(writing, a, b, e)
    ensures |b.emitted| == |a.emitted| + Size(writing, e.text)
  {
  }

  lemma OutputTakes(writing: bool, ranges: seq<CaseRange>, terms: seq<Term>, matches: set<nat>, v: Value, depth: nat, a: Totals, b: Totals)
    requires Applied(writing, a, b, MatchedEffect(ranges, terms, matches, v, depth))
    ensures |b.emitted| == |a.emitted| + Size(writing, Print(Strip(v)))
  {
    hide Print, Strip, Applied;
    OutputGrows(writing, a, b, MatchedEffect(ranges, terms, matches, v, depth));
  }

  lemma OutputOpens(writing: bool, a: Totals, b: Totals, braces: bool, space: string)
    requires Applied(writing, a, b, Then(Emits(Open(braces)), Spaces(space)))
    ensures |b.emitted| == |a.emitted| + Size(writing, Open(braces))
  {
    OutputGrows(writing, a, b, Then(Emits(Open(braces)), Spaces(space)));
  }

  lemma OutputSeparates(writing: bool, a: Totals, b: Totals, c: char, space: string)
    requires Applied(writing, a, b, Then(Emits([c]), Spaces(space)))
    ensures |b.emitted| == |a.emitted| + Size(writing, [c])
  {
    OutputGrows(writing, a, b, Then(Emits([c]), Spaces(space)));
  }

  lemma NothingCaught(spans: map<nat, Span>)
    ensures spans + map[] == spans
  {
  }

  /** Without keys nothing is caught, and only a container with members holds anything to catch. */
  lemma NoKeysCatchNothing(writing: bool, keys: seq<seq<string>>, v: Value, depth: nat, at: nat)
    ensures Caught(writing, keys, {}, v, depth, at) == map[]
  {
    hide Caught;
    OnlyActive(writing, keys, {}, v, depth, at);
  }

  /** Members are only read below the last level, and only behind a bracket. */
  lemma NestedAt(s: string, pos: nat, depth: nat)
    requires pos < |s| && ParseValue(s, pos, depth).Some? && ParseValue(s, pos, depth).value.value.Nest?
    ensures depth < MAX_DEPTH && (s[pos] == '{' || s[pos] == '[')
  {
    hide ParseMembers, StringAt, NumberEnd, At, SpaceEnd;
  }

  /** A value is caught when it was scanned with the keys that go on below it, or holds no members. */
  lemma ValueCaught(writing: bool, keys: seq<seq<string>>, matched: set<nat>, below: set<nat>, s: string, pos: nat, depth: nat, at: nat,
                    before: map<nat, Span>, scanned: map<nat, Span>, after: map<nat, Span>)
    requires pos < |s| && ParseValue(s, pos, depth + 1).Some?
    requires depth + 1 < MAX_DEPTH && (s[pos] == '{' || s[pos] == '[') ==> below == GoOn(keys, matched, depth)
    requires var v := ParseValue(s, pos, depth + 1).value.value;
      && scanned == before + Caught(writing, keys, below, v, depth + 1, at)
      && after == scanned + Everywhere(Ends(keys, matched, depth), Span(at, Size(writing, Print(Strip(v)))))
    ensures after == before + CaughtValue(writing, keys, matched, ParseValue(s, pos, depth + 1).value.value, depth, at)
  {
    hide ParseValue, CaughtMembers, Print, Strip, Ends, GoOn, Everywhere;
    var v := ParseValue(s, pos, depth + 1).value.value;
    if v.Nest? {
      NestedAt(s, pos, depth + 1);
    }
  }

  /** The keys whose segment is the member's decoded key are those that the step to it keeps. */
  lemma KeysAreStepped(keys: seq<seq<string>>, source: set<nat>, depth: nat, chars: Chars, colon: string, gap: string, index: nat)
    requires AreItems(chars)
    ensures KeysAt(keys, source, depth, Meaning(chars)) == SteppedKeys(keys, source, Named(chars, colon, gap), depth, index)
  {
  }

  /** A member's value lies behind its key. */
  lemma MemberCaught(writing: bool, keys: seq<seq<string>>, active: set<nat>, m: Member, depth: nat, index: nat, a: Totals, b: Totals)
    requires Applied(writing, a, b, KeyEffect(m.key))
    ensures CaughtMember(writing, keys, active, m, depth, index, |a.emitted|)
         == CaughtValue(writing, keys, SteppedKeys(keys, active, m.key, depth, index), m.value, depth, |b.emitted|)
  {
    hide Applied, CaughtValue, PrintKey, StripMember, KeyEffect;
    OutputGrows(writing, a, b, KeyEffect(m.key));
    KeyText(m);
  }

  // ---------------------------------------------------------------- a members loop

  /** The spans so far and those of what is left to read are the spans of the whole. */
  ghost predicate CaptureRun(writing: bool, keys: seq<seq<string>>, active: set<nat>, whole: Option<ParsedMembers>,
                             rest: Option<ParsedMembers>, depth: nat, index: nat, from: nat, at: nat,
                             before: map<nat, Span>, now: map<nat, Span>) {
    whole.Some? ==>
      && rest.Some?
      && before + CaughtMembers(writing, keys, active, whole.value.members, depth, 0, from)
         == now + CaughtMembers(writing, keys, active, rest.value.members, depth, index, at)
  }

  lemma CaptureRunStarts(writing: bool, keys: seq<seq<string>>, active: set<nat>, whole: Option<ParsedMembers>, depth: nat, from: nat,
                         before: map<nat, Span>)
    ensures CaptureRun(writing, keys, active, whole, whole, depth, 0, from, from, before, before)
  {
  }

  lemma CaptureRunEnds(writing: bool, keys: seq<seq<string>>, active: set<nat>, whole: Option<ParsedMembers>, s: string, q: nat,
                       braces: bool, depth: nat, index: nat, from: nat, at: nat, before: map<nat, Span>, now: map<nat, Span>)
    requires q <= |s| && ParseMember(s, q, depth + 1, braces).Some? && whole.Some?
    requires CaptureRun(writing, keys, active, whole, ParseMembers(s, q, depth + 1, braces), depth, index, from, at, before, now)
    requires IsAt(s, ParseMember(s, q, depth + 1, braces).value.next, Closing(braces)[0])
    ensures before + CaughtMembers(writing, keys, active, whole.value.members, depth, 0, from)
         == now + CaughtMember(writing, keys, active, ParseMember(s, q, depth + 1, braces).value.member, depth, index, at)
  {
    hide CaughtMember, ParseMember;
    var m := ParseMember(s, q, depth + 1, braces).value.member;
    assert ParseMembers(s, q, depth + 1, braces).value.members == One(m);
    OneCaught(writing, keys, active, m, depth, index, at);
  }

  lemma OneCaught(writing: bool, keys: seq<seq<string>>, active: set<nat>, m: Member, depth: nat, index: nat, at: nat)
    ensures CaughtMembers(writing, keys, active, One(m), depth, index, at) == CaughtMember(writing, keys, active, m, depth, index, at)
  {
    hide CaughtMember;
  }

  lemma CaptureRunGoesOn(writing: bool, keys: seq<seq<string>>, active: set<nat>, whole: Option<ParsedMembers>, s: string, q: nat,
                         braces: bool, depth: nat, index: nat, from: nat, at: nat, before: map<nat, Span>, now: map<nat, Span>)
    requires q <= |s| && ParseMember(s, q, depth + 1, braces).Some?
    requires CaptureRun(writing, keys, active, whole, ParseMembers(s, q, depth + 1, braces), depth, index, from, at, before, now)
    requires var next := ParseMember(s, q, depth + 1, braces).value.next;
      IsAt(s, next, ',') && !IsAt(s, next, Closing(braces)[0])
    ensures var m := ParseMember(s, q, depth + 1, braces).value;
      CaptureRun(writing, keys, active, whole, ParseMembers(s, m.next + 1, depth + 1, braces), depth, index + 1, from,
                 NextMember(writing, m.member, at), before,
                 now + CaughtMember(writing, keys, active, m.member, depth, index, at))
  {
    hide CaughtMember, ParseMember, NextMember;
    var m := ParseMember(s, q, depth + 1, braces).value;
    var next := ParseMembers(s, m.next + 1, depth + 1, braces);
    if whole.Some? && next.Some? {
      var first := CaughtMember(writing, keys, active, m.member, depth, index, at);
      var later := CaughtMembers(writing, keys, active, next.value.members, depth, index + 1, NextMember(writing, m.member, at));
      MoreCaught(writing, keys, active, m.member, next.value.members, depth, index, at);
      assert now + (first + later) == now + first + later;
    }
  }

  lemma MoreCaught(writing: bool, keys: seq<seq<string>>, active: set<nat>, m: Member, rest: Members, depth: nat, index: nat, at: nat)
    ensures CaughtMembers(writing, keys, active, More(m, rest), depth, index, at)
         == CaughtMember(writing, keys, active, m, depth, index, at)
            + CaughtMembers(writing, keys, active, rest, depth, index + 1, NextMember(writing, m, at))
  {
    hide CaughtMember, NextMember;
  }

  /** Behind a member and the comma the output is where the next member's text starts. */
  lemma NextMemberAt(writing: bool, ranges: seq<CaseRange>, terms: seq<Term>, active: set<nat>, m: Member, depth: nat, index: nat,
                     a: Totals, b: Totals, c: nat)
    requires Applied(writing, a, b, MemberEffect(ranges, terms, active, m, depth, index)) && c == |b.emitted| + Size(writing, ",")
    ensures c == NextMember(writing, m, |a.emitted|)
  {
    hide Applied, PrintMember, StripMember;
    OutputGrows(writing, a, b, MemberEffect(ranges, terms, active, m, depth, index));
  }
}
