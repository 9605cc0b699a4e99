/** What a term of a selector asks of a JSON value: the meaning of the scanner's hits. */
module Query {
  import opened Wrappers
  import opened Utf8
  import opened CaseFold
  import opened Digits
  import opened Terms
  import opened TextMatch
  import opened JsonSyntax
  import JsonNumber
  import NumberCompare
  import NumberStream
  import DateTerms

  const SIZE_MAX := 0xffff_ffff_ffff_ffff

  // ---------------------------------------------------------------- one step of a path

  predicate IsObjectWildcard(segment: string) { segment == "*" || segment == "**" }

  predicate IsArrayWildcard(segment: string) { segment == "[]" || segment == "**" }

  /** A path segment and the key of an object member. */
  predicate KeyStep(segment: string, key: string) {
    IsObjectWildcard(segment) || (segment != "[]" && segment == key)
  }

  /** A path segment and the position of an array element. */
  ghost predicate IndexStep(segment: string, index: nat) {
    IsArrayWildcard(segment) || (|segment| > 0 && AllDigits(segment) && NatOf(segment) == index)
  }

  ghost predicate Step(segment: string, key: Key, index: nat) {
    match key
    case NoKey => IndexStep(segment, index)
    case Named(chars, _, _) => AreItems(chars) && KeyStep(segment, Meaning(chars))
  }

  // ---------------------------------------------------------------- the predicate at the end of a path

  ghost predicate Ordered(text: string, bound: Option<string>, signs: set<int>) {
    bound.Some? ==> JsonNumber.IsJsonNumber(text) && JsonNumber.IsJsonNumber(bound.value)
                    && NumberCompare.Order(text, bound.value) in signs
  }

  ghost predicate InRange(text: string, bounds: Bounds) {
    && Ordered(text, bounds.gt, {1}) && Ordered(text, bounds.gte, {0, 1})
    && Ordered(text, bounds.lt, {-1}) && Ordered(text, bounds.lte, {-1, 0})
  }

  /** The text a textual term looks at: a decoded string, or the bytes of a number, true or false. */
  ghost predicate HitsText(ranges: seq<CaseRange>, term: Term, v: Value) {
    match v
    case Text(chars) => AreItems(chars) && Hit(ranges, term, false, 0, Meaning(chars))
    case Number(text) => Textual(term.kind) && Hit(ranges, term, false, 0, text)
    case Bool(_) => Textual(term.kind) && Hit(ranges, term, false, 0, Literal(v))
    case _ => false
  }

  ghost predicate Satisfies(ranges: seq<CaseRange>, term: Term, v: Value) {
    match term.kind
    case Exists => !v.Null?
    case ValuelessPresent => true
    case BoolEq => v.Bool? && term.value == Literal(v)
    case NullEq => v.Null? && term.value == Literal(v)
    case NumberEq => v.Number? && Ordered(v.text, Some(term.value), {0})
    case NumberRange => v.Number? && InRange(v.text, term.bounds)
    case TemporalRange => v.Text? && AreItems(v.chars) && DateTerms.DateWithin(Meaning(v.chars), term.dates)
    case _ => HitsText(ranges, term, v)
  }

  /** Ranges and equality of numbers, said of their values. */
  lemma RangesAreByValue(text: string, bounds: Bounds)
    requires JsonNumber.IsJsonNumber(text)
    requires forall bound :: bound in [bounds.gt, bounds.gte, bounds.lt, bounds.lte] && bound.Some? ==> JsonNumber.IsJsonNumber(bound.value)
    ensures InRange(text, bounds)
       <==> && (bounds.gt.Some? ==> JsonNumber.Value(text) > JsonNumber.Value(bounds.gt.value))
            && (bounds.gte.Some? ==> JsonNumber.Value(text) >= JsonNumber.Value(bounds.gte.value))
            && (bounds.lt.Some? ==> JsonNumber.Value(text) < JsonNumber.Value(bounds.lt.value))
            && (bounds.lte.Some? ==> JsonNumber.Value(text) <= JsonNumber.Value(bounds.lte.value))
  {
    hide JsonNumber.IsJsonNumber, JsonNumber.Value;
    var all := [bounds.gt, bounds.gte, bounds.lt, bounds.lte];
    assert bounds.gt == all[0] && bounds.gte == all[1] && bounds.lt == all[2] && bounds.lte == all[3];
  }

  lemma EqualityIsByValue(ranges: seq<CaseRange>, term: Term, text: string)
    requires term.kind == NumberEq && JsonNumber.IsJsonNumber(text) && JsonNumber.IsJsonNumber(term.value)
    ensures Satisfies(ranges, term, Number(text)) <==> JsonNumber.Value(text) == JsonNumber.Value(term.value)
  {
    hide JsonNumber.IsJsonNumber, JsonNumber.Value;
  }

  /** The wildcards: "*" is any member, "[]" any element, "**" either; every other segment is a name or a number. */
  lemma StepsByName(segment: string, chars: Chars, colon: string, gap: string, index: nat)
    requires AreItems(chars)
    ensures var key := Named(chars, colon, gap);
      && Step("*", key, index) && !Step("*", NoKey, index) && !Step("[]", key, index) && Step("[]", NoKey, index)
      && Step("**", key, index) && Step("**", NoKey, index)
      && (segment !in {"*", "[]", "**"} ==>
            && (Step(segment, key, index) <==> segment == Meaning(chars))
            && (Step(segment, NoKey, index) <==> segment != "" && (forall i :: 0 <= i < |segment| ==> '0' <= segment[i] <= '9') && NatOf(segment) == index))
  {
    hide Meaning, NatOf;
    assert !IsDigit("*"[0]);
  }

  // ---------------------------------------------------------------- below a value

  /** Some value strictly below v, where depth segments lead to v, completes the path and satisfies the term. */
  ghost predicate Under(ranges: seq<CaseRange>, term: Term, v: Value, depth: nat) {
    v.Nest? && UnderMembers(ranges, term, v.members, depth, 0)
  }

  ghost predicate UnderMembers(ranges: seq<CaseRange>, term: Term, ms: Members, depth: nat, index: nat) {
    MemberHits(ranges, term, ms.member, depth, index)
    || (ms.More? && UnderMembers(ranges, term, ms.rest, depth, index + 1))
  }

  ghost predicate MemberHits(ranges: seq<CaseRange>, term: Term, m: Member, depth: nat, index: nat) {
    && depth < |term.path| && Step(term.path[depth], m.key, index)
    && (if depth + 1 == |term.path| then Satisfies(ranges, term, m.value) else Under(ranges, term, m.value, depth + 1))
  }

  // ---------------------------------------------------------------- the same, said of nodes

  /** The member at a position of a container. */
  function ChildAt(ms: Members, i: nat): Option<Member> {
    if i == 0 then Some(ms.member) else if ms.One? then None else ChildAt(ms.rest, i - 1)
  }

  function Child(v: Value, i: nat): Option<Member> { if v.Nest? then ChildAt(v.members, i) else None }

  /** The node is what the positions of the route lead to from v, and every segment of the path allows its step. */
  ghost predicate Follows(v: Value, route: seq<nat>, path: seq<string>, node: Value)
    decreases route
  {
    if |route| == 0 then |path| == 0 && node == v else
    && |path| > 0 && Child(v, route[0]).Some?
    && Step(path[0], Child(v, route[0]).value.key, route[0])
    && Follows(Child(v, route[0]).value.value, route[1..], path[1..], node)
  }

  ghost predicate Reaches(v: Value, path: seq<string>, node: Value) { exists route :: Follows(v, route, path, node) }

  ghost predicate ChildHits(ranges: seq<CaseRange>, term: Term, ms: Members, depth: nat, index: nat, i: nat) {
    ChildAt(ms, i).Some? && MemberHits(ranges, term, ChildAt(ms, i).value, depth, index + i)
  }

  lemma NextChild(ranges: seq<CaseRange>, term: Term, ms: Members, depth: nat, index: nat, i: nat)
    requires ms.More?
    ensures ChildHits(ranges, term, ms, depth, index, i + 1) <==> ChildHits(ranges, term, ms.rest, depth, index + 1, i)
  {
    assert index + (i + 1) == index + 1 + i;
  }

  lemma {:induction false} UnderMembersIsChild(ranges: seq<CaseRange>, term: Term, ms: Members, depth: nat, index: nat)
    ensures UnderMembers(ranges, term, ms, depth, index) <==> exists i: nat :: ChildHits(ranges, term, ms, depth, index, i)
    decreases ms
  {
    hide MemberHits;
    if ms.More? {
      UnderMembersIsChild(ranges, term, ms.rest, depth, index + 1);
    }
    assert ChildHits(ranges, term, ms, depth, index, 0) <==> MemberHits(ranges, term, ms.member, depth, index);
    if UnderMembers(ranges, term, ms, depth, index) && !MemberHits(ranges, term, ms.member, depth, index) {
      var i: nat :| ChildHits(ranges, term, ms.rest, depth, index + 1, i);
      NextChild(ranges, term, ms, depth, index, i);
    }
    if exists i: nat :: ChildHits(ranges, term, ms, depth, index, i) {
      var i: nat :| ChildHits(ranges, term, ms, depth, index, i);
      if i > 0 {
        NextChild(ranges, term, ms, depth, index, i - 1);
      }
    }
  }

  /** A term hits below v exactly when its remaining path reaches a node that satisfies it. */
  lemma {:induction false} UnderIsReach(ranges: seq<CaseRange>, term: Term, v: Value, depth: nat)
    requires depth < |term.path|
    ensures Under(ranges, term, v, depth)
       <==> exists node :: Reaches(v, term.path[depth..], node) && Satisfies(ranges, term, node)
    decreases |term.path| - depth
  {
    hide Satisfies, Step, UnderMembers;
    var path := term.path[depth..];
    if Under(ranges, term, v, depth) {
      UnderMembersIsChild(ranges, term, v.members, depth, 0);
      var i: nat :| ChildHits(ranges, term, v.members, depth, 0, i);
      ChildReaches(ranges, term, v, depth, i);
    }
    if exists node :: Reaches(v, path, node) && Satisfies(ranges, term, node) {
      var node :| Reaches(v, path, node) && Satisfies(ranges, term, node);
      var route :| Follows(v, route, path, node);
      RouteHits(ranges, term, v, depth, route, node);
      UnderMembersIsChild(ranges, term, v.members, depth, 0);
      assert ChildHits(ranges, term, v.members, depth, 0, route[0]);
    }
  }

  lemma {:induction false} ChildReaches(ranges: seq<CaseRange>, term: Term, v: Value, depth: nat, i: nat)
    requires depth < |term.path| && Child(v, i).Some? && MemberHits(ranges, term, Child(v, i).value, depth, i)
    ensures exists node :: Reaches(v, term.path[depth..], node) && Satisfies(ranges, term, node)
    decreases |term.path| - depth, 0
  {
    hide Satisfies, Step, Under;
    var m := Child(v, i).value;
    var path := term.path[depth..];
    assert path[1..] == term.path[depth + 1..];
    if depth + 1 == |term.path| {
      assert Follows(m.value, [], path[1..], m.value);
      Extend(v, i, [], path, m.value);
    } else {
      UnderIsReach(ranges, term, m.value, depth + 1);
      var node :| Reaches(m.value, term.path[depth + 1..], node) && Satisfies(ranges, term, node);
      var route :| Follows(m.value, route, term.path[depth + 1..], node);
      Extend(v, i, route, path, node);
    }
  }

  lemma Extend(v: Value, i: nat, route: seq<nat>, path: seq<string>, node: Value)
    requires |path| > 0 && Child(v, i).Some? && Step(path[0], Child(v, i).value.key, i)
    requires Follows(Child(v, i).value.value, route, path[1..], node)
    ensures Reaches(v, path, node)
  {
    assert ([i] + route)[1..] == route;
    assert Follows(v, [i] + route, path, node);
  }

  lemma {:induction false} RouteHits(ranges: seq<CaseRange>, term: Term, v: Value, depth: nat, route: seq<nat>, node: Value)
    requires depth < |term.path| && Follows(v, route, term.path[depth..], node) && Satisfies(ranges, term, node)
    ensures |route| > 0 && Child(v, route[0]).Some? && MemberHits(ranges, term, Child(v, route[0]).value, depth, route[0])
    decreases |term.path| - depth, 0
  {
    hide Satisfies, Step, UnderMembers;
    var path := term.path[depth..];
    var m := Child(v, route[0]).value;
    assert path[1..] == term.path[depth + 1..];
    if depth + 1 < |term.path| {
      assert Reaches(m.value, path[1..], node);
      UnderIsReach(ranges, term, m.value, depth + 1);
    }
  }

  // ---------------------------------------------------------------- numbers that are too long to keep

  /** The streaming comparison of a number token with a bound is exact. */
  ghost predicate Comparable(text: string, bound: string) {
    || |text| < NumberStream.MATCH_BYTES
    || (NumberStream.Unclamped(text) && NumberStream.Unclamped(bound) && !NumberStream.Misleads(text, bound))
  }

  ghost predicate ComparableAll(terms: seq<Term>, text: string) {
    forall i, bound :: 0 <= i < |terms| && bound in BoundTexts(terms[i]) ==> Comparable(text, bound)
  }

  /** So are the comparisons of every number in the value. */
  ghost predicate Exact(terms: seq<Term>, v: Value) {
    match v
    case Number(text) => ComparableAll(terms, text)
    case Nest(_, members) => ExactMembers(terms, members)
    case _ => true
  }

  ghost predicate ExactMembers(terms: seq<Term>, ms: Members) {
    Exact(terms, ms.member.value) && (ms.More? ==> ExactMembers(terms, ms.rest))
  }
}
