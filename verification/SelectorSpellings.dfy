/** The other spellings a selector's JSON may use: short keys, words for ignoreCase, and alternatives between bars
    (src/lql_selector.c). Each reads as the spelling that the writer uses. */
module SelectorSpellings {
  import opened Wrappers
  import opened JsonSyntax
  import JsonNumber
  import JsonParse
  import JsonRoundTrip
  import MutationPath
  import S = Selectors
  import SelectorRoundTrip
  import TextMatch
  import Timestamp

  // ---------------------------------------------------------------- short keys

  /** The long name of a key (src/lql_selector.c:433-488): "a" is short for "after" of a date and for "any" elsewhere. */
  function LongName(kind: S.Kind, key: string): string {
    if key == "f" then "field"
    else if key == "v" then "value"
    else if key == "ic" || key == "ignorecase" then "ignoreCase"
    else if key == "b" then "before"
    else if key == "a" then (if kind == S.DateKind then "after" else "any")
    else key
  }

  lemma ShortKeyFillsItsSlot(kind: S.Kind, key: string)
    ensures S.SlotOf(kind, key) == S.SlotOf(kind, LongName(kind, key))
  {
  }

  /** The long names, and the slots they are. */
  lemma LongNamesNameTheirSlots(kind: S.Kind)
    ensures S.SlotOf(kind, "field") == Some(S.Field)
    ensures kind.TermKind? || kind.DateKind? ==> S.SlotOf(kind, "value") == Some(S.Value)
    ensures kind == S.InKind || kind == S.TermKind(S.Contains) || kind == S.TermKind(S.IContains) ==> S.SlotOf(kind, "any") == Some(S.Any)
    ensures kind.TermKind? && kind.op != S.Eq && kind.op != S.Ne ==> S.SlotOf(kind, "ignoreCase") == Some(S.IgnoreCase)
    ensures kind.RangeKind? || kind.DateKind? ==>
              && S.SlotOf(kind, "gt") == Some(S.Gt) && S.SlotOf(kind, "gte") == Some(S.Gte)
              && S.SlotOf(kind, "lt") == Some(S.Lt) && S.SlotOf(kind, "lte") == Some(S.Lte)
    ensures kind.DateKind? ==>
              && S.SlotOf(kind, "after") == Some(S.After) && S.SlotOf(kind, "before") == Some(S.Before)
              && S.SlotOf(kind, "since") == Some(S.Since)
  {
  }

  /** The same members, the second time with the long names of their keys. White space and escapes may differ. */
  ghost predicate Renames(kind: S.Kind, ms: Members, longs: Members) {
    && ms.member.key.Named? && AreItems(ms.member.key.chars) && longs.member.key.Named? && AreItems(longs.member.key.chars)
    && ms.member.value == longs.member.value
    && Meaning(longs.member.key.chars) == LongName(kind, Meaning(ms.member.key.chars))
    && (ms.One? <==> longs.One?) && (ms.More? ==> Renames(kind, ms.rest, longs.rest))
  }

  ghost predicate IsPredicate(f: Option<S.Frame>, kind: S.Kind) {
    f.Some? ==> f.value.Predicate? && f.value.partial.kind == kind
  }

  lemma KeyKeepsKind(p: S.Partial, slot: Option<S.Slot>, key: string)
    ensures IsPredicate(S.OnKey(S.Predicate(p, slot), key), p.kind)
    ensures S.OnKey(S.Predicate(p, slot), key) == S.OnKey(S.Predicate(p, slot), LongName(p.kind, key))
  {
    ShortKeyFillsItsSlot(p.kind, key);
    NulOnlyInItself(p.kind, key);
  }

  lemma NulOnlyInItself(kind: S.Kind, key: string)
    ensures S.HasNul(LongName(kind, key)) <==> S.HasNul(key)
  {
    assert '\0' !in "field" && '\0' !in "value" && '\0' !in "ignoreCase" && '\0' !in "before" && '\0' !in "after" && '\0' !in "any";
    assert '\0' !in "f" && '\0' !in "v" && '\0' !in "ic" && '\0' !in "ignorecase" && '\0' !in "b" && '\0' !in "a";
  }

  lemma ValueKeepsKind(f: S.Frame, v: Value)
    requires f.Predicate? && WellFormed(v)
    ensures IsPredicate(S.Take(f, v), f.partial.kind)
  {
    hide Meaning, S.TakeMembers;
    if v.Text? {
      TextKeepsKind(f.partial, f.slot, Meaning(v.chars));
    }
  }

  lemma TextKeepsKind(p: S.Partial, slot: Option<S.Slot>, text: string)
    ensures IsPredicate(S.OnText(S.Predicate(p, slot), text), p.kind)
  {
    hide S.Split, S.RangeBound, S.IsDateBound;
  }

  /** Renaming the keys of a predicate keeps what it fills. */
  lemma {:induction false} RenamedMembersFillTheSame(f: S.Frame, ms: Members, longs: Members)
    requires f.Predicate? && WellFormedMembers(ms, true) && WellFormedMembers(longs, true) && Renames(f.partial.kind, ms, longs)
    ensures S.TakeMembers(f, ms, true) == S.TakeMembers(f, longs, true)
    decreases ms
  {
    hide Meaning, S.OnKey, S.Take, LongName, WellFormed;
    var key := Meaning(ms.member.key.chars);
    KeyKeepsKind(f.partial, f.slot, key);
    var keyed := S.OnKey(f, key);
    if keyed.Some? {
      ValueKeepsKind(keyed.value, ms.member.value);
      var next := S.Take(keyed.value, ms.member.value);
      if next.Some? && ms.More? {
        RenamedMembersFillTheSame(next.value, ms.rest, longs.rest);
      }
    }
  }

  /** Wherever a predicate object may stand, it stands for the same selector with short and with long keys. */
  lemma RenamedPredicateIsTheSame(f: S.Frame, kind: S.Kind, ms: Members, longs: Members)
    requires S.OpenObject(f) == Some(S.Predicate(S.Fresh(kind), None))
    requires WellFormedMembers(ms, true) && WellFormedMembers(longs, true) && Renames(kind, ms, longs)
    ensures S.Take(f, Nest(true, ms)) == S.Take(f, Nest(true, longs))
  {
    hide S.OpenObject, S.CloseObject, S.TakeMembers, Renames;
    RenamedMembersFillTheSame(S.Predicate(S.Fresh(kind), None), ms, longs);
  }

  /** The text is the value, with space around it. */
  ghost predicate Spells(text: string, v: Value) {
    var start := JsonParse.SpaceEnd(text, 0);
    var parsed := JsonParse.ParseValue(text, start, -|text|);
    parsed.Some? && JsonParse.SpaceEnd(text, parsed.value.next) == |text| && parsed.value.value == v
  }

  /** Two texts of one operator whose predicates differ in how their keys are spelt read as the same selector. */
  lemma RenamedTextsReadTheSame(text: string, longText: string, key: Key, longKey: Key, before: string, longBefore: string, after: string,
                                longAfter: string, kind: S.Kind, ms: Members, longs: Members)
    requires Spells(text, Nest(true, One(Member(before, key, Nest(true, ms), after))))
    requires Spells(longText, Nest(true, One(Member(longBefore, longKey, Nest(true, longs), longAfter))))
    requires key.Named? && AreItems(key.chars) && longKey.Named? && AreItems(longKey.chars) && Meaning(key.chars) == Meaning(longKey.chars)
    requires S.KindOf(Meaning(key.chars)) == Some(kind) && kind != S.AndKind && kind != S.OrKind && kind != S.NotKind && kind != S.ExistsKind
    requires WellFormedMembers(ms, true) && WellFormedMembers(longs, true) && Renames(kind, ms, longs)
    ensures S.Read(text) == S.Read(longText)
  {
    hide Meaning, JsonParse.ParseValue, JsonParse.SpaceEnd, S.CloseObject, Renames, S.KindOf, S.TakeMembers;
    JsonRoundTrip.ParsedIsThere(text, JsonParse.SpaceEnd(text, 0), -|text|);
    JsonRoundTrip.ParsedIsThere(longText, JsonParse.SpaceEnd(longText, 0), -|longText|);
    RenamedPredicateIsTheSame(S.Node(Some(kind), true, S.All), kind, ms, longs);
    OperatorOpens(before, key, after, kind, ms);
    OperatorOpens(longBefore, longKey, longAfter, kind, longs);
  }

  lemma OperatorOpens(before: string, key: Key, after: string, kind: S.Kind, ms: Members)
    requires key.Named? && AreItems(key.chars) && S.KindOf(Meaning(key.chars)) == Some(kind)
    requires WellFormedMembers(One(Member(before, key, Nest(true, ms), after)), true)
    ensures WellFormed(Nest(true, ms))
    ensures S.TakeMembers(S.NODE, One(Member(before, key, Nest(true, ms), after)), true)
         == if S.HasNul(Meaning(key.chars)) then None else S.Take(S.Node(Some(kind), true, S.All), Nest(true, ms))
  {
    hide Meaning, S.KindOf, S.Take, AreItems;
    assert WellFormedMember(Member(before, key, Nest(true, ms), after), true);
  }

  // ---------------------------------------------------------------- words for ignoreCase

  /** As strings, "true" and "t" say what true says, "false" and "f" what false says, and nothing else is taken. */
  lemma CaseWords(p: S.Partial, chars: Chars)
    requires AreItems(chars)
    ensures var f := S.Predicate(p, Some(S.IgnoreCase)); var word := Meaning(chars);
      && (word == "true" || word == "t" ==> S.Take(f, Text(chars)) == S.Take(f, Bool(true)) == Some(S.Predicate(p.(ignoreCase := true), None)))
      && (word == "false" || word == "f" ==> S.Take(f, Text(chars)) == S.Take(f, Bool(false)) == Some(S.Predicate(p.(ignoreCase := false), None)))
      && (word !in {"true", "t", "false", "f"} ==> S.Take(f, Text(chars)) == None)
  {
    hide Meaning;
    assert '\0' !in "true" && '\0' !in "t" && '\0' !in "false" && '\0' !in "f";
  }

  // ---------------------------------------------------------------- alternatives between bars

  /** The white space of the C locale. */
  predicate Blank(s: string) { forall i :: 0 <= i < |s| ==> s[i] as int in {9, 10, 11, 12, 13, 32} }

  predicate Solid(c: char) { c as int !in {9, 10, 11, 12, 13, 32} }

  /** A text that neither starts nor ends with white space, and holds no bar. */
  predicate IsCore(core: string) { |core| > 0 && Solid(core[0]) && Solid(core[|core| - 1]) && '|' !in core }

  lemma {:induction false} DropPadding(a: string, core: string)
    requires Blank(a) && |core| > 0 && Solid(core[0])
    ensures S.DropBlanks(a + core) == core
  {
    if |a| == 0 {
      assert a + core == core;
    } else {
      assert (a + core)[1..] == a[1..] + core;
      DropPadding(a[1..], core);
    }
  }

  lemma {:induction false} ChopPadding(core: string, b: string)
    requires Blank(b) && |core| > 0 && Solid(core[|core| - 1])
    ensures S.ChopBlanks(core + b) == core
    decreases |b|
  {
    if |b| == 0 {
      assert core + b == core;
    } else {
      assert (core + b)[..|core + b| - 1] == core + b[..|b| - 1];
      ChopPadding(core, b[..|b| - 1]);
    }
  }

  /** White space around a text goes. */
  lemma TrimPadding(a: string, core: string, b: string)
    requires Blank(a) && Blank(b) && |core| > 0 && Solid(core[0]) && Solid(core[|core| - 1])
    ensures S.Trim(a + core + b) == core
  {
    assert a + core + b == a + (core + b);
    DropPadding(a, core + b);
    ChopPadding(core, b);
  }

  /** An alternative as it stands between two bars. */
  datatype Padded = Padded(before: string, core: string, after: string)

  predicate IsPadded(p: Padded) { Blank(p.before) && Blank(p.after) && IsCore(p.core) }

  function Whole(p: Padded): string { p.before + p.core + p.after }

  function Barred(ps: seq<Padded>): string
    requires |ps| > 0
  {
    if |ps| == 1 then Whole(ps[0]) else Whole(ps[0]) + "|" + Barred(ps[1..])
  }

  predicate Tight(ps: seq<Padded>) { forall i :: 0 <= i < |ps| ==> ps[i].before == "" && ps[i].after == "" }

  function Items(kind: S.Kind, ps: seq<Padded>): seq<S.Literal> {
    if |ps| == 0 then [] else [S.Literal(S.KindFor(kind, S.GuessKind(ps[0].core)), ps[0].core)] + Items(kind, ps[1..])
  }

  lemma {:induction false} BarsSplit(kind: S.Kind, ps: seq<Padded>)
    requires |ps| > 0 && forall i :: 0 <= i < |ps| ==> IsPadded(ps[i])
    ensures S.Split(kind, Barred(ps)) == S.Alternatives(Items(kind, ps), kind == S.InKind && !Tight(ps))
    decreases |ps|
  {
    hide S.Trim, S.GuessKind, MutationPath.Find, Whole, IsPadded, S.KindFor;
    assert IsPadded(ps[0]);
    PaddedIs(ps[0]);
    var text, whole := Barred(ps), Whole(ps[0]);
    MutationPath.FindIs(text, 0, '|', |whole|);
    assert text[..|whole|] == whole;
    TightFirst(ps);
    if |ps| > 1 {
      assert text[|whole| + 1..] == Barred(ps[1..]);
      BarsSplit(kind, ps[1..]);
    } else {
      assert Items(kind, ps[1..]) == [] && Tight(ps[1..]);
    }
  }

  lemma TightFirst(ps: seq<Padded>)
    requires |ps| > 0
    ensures Tight(ps) <==> (ps[0].before == "" && ps[0].after == "" && Tight(ps[1..]))
  {
    assert forall i :: 0 <= i < |ps| - 1 ==> ps[1..][i] == ps[i + 1];
    assert forall i :: 0 < i < |ps| ==> ps[i] == ps[1..][i - 1];
  }

  lemma PaddedIs(p: Padded)
    requires IsPadded(p)
    ensures S.Trim(Whole(p)) == p.core && p.core != "" && '|' !in Whole(p)
    ensures p.core == Whole(p) <==> p.before == "" && p.after == ""
  {
    TrimPadding(p.before, p.core, p.after);
    assert |Whole(p)| == |p.before| + |p.core| + |p.after|;
    if p.before == "" && p.after == "" {
      assert Whole(p) == p.core;
    }
  }

  /** A JSON scalar that the text of an alternative stands for: a word or a number as itself, any other text as a string. */
  ghost predicate Stands(v: Value, core: string) {
    match v
    case Bool(b) => core == if b then "true" else "false"
    case Null => core == "null"
    case Number(text) => core == text && JsonNumber.IsJsonNumber(text)
    case Text(chars) => AreItems(chars) && Meaning(chars) == core && core !in {"true", "false", "null"} && !JsonNumber.IsJsonNumber(core)
    case _ => false
  }

  ghost predicate AllStand(ms: Members, ps: seq<Padded>) {
    && |ps| > 0 && ms.member.key.NoKey? && Stands(ms.member.value, ps[0].core)
    && (ms.One? <==> |ps| == 1) && (ms.More? ==> AllStand(ms.rest, ps[1..]))
  }

  lemma WordsAreNoNumbers()
    ensures !JsonNumber.IsJsonNumber("true") && !JsonNumber.IsJsonNumber("false") && !JsonNumber.IsJsonNumber("null")
  {
    NoNumber("true");
    NoNumber("false");
    NoNumber("null");
  }

  lemma NoNumber(text: string)
    requires |text| > 0 && 'a' <= text[0] <= 'z'
    ensures !JsonNumber.IsJsonNumber(text)
  {
    forall l ensures !JsonNumber.Matches(text, l) {
    }
  }

  lemma OneStands(kind: S.Kind, had: seq<S.Literal>, v: Value, core: string)
    requires WellFormed(v) && Stands(v, core)
    ensures S.Take(S.AnyArray(kind, had), v) == Some(S.AnyArray(kind, had + [S.Literal(S.KindFor(kind, S.GuessKind(core)), core)]))
  {
    hide Meaning, JsonNumber.IsJsonNumber, JsonNumber.ReadLayout;
    WordsAreNoNumbers();
    JsonNumber.LayoutIsUnique(core);
  }

  lemma {:induction false} AllAreTaken(kind: S.Kind, had: seq<S.Literal>, ms: Members, ps: seq<Padded>)
    requires WellFormedMembers(ms, false) && AllStand(ms, ps)
    ensures S.TakeMembers(S.AnyArray(kind, had), ms, false) == Some(S.AnyArray(kind, had + Items(kind, ps)))
    decreases ms
  {
    hide Stands, WellFormed, S.Take, S.GuessKind, S.KindFor;
    OneStands(kind, had, ms.member.value, ps[0].core);
    var first := [S.Literal(S.KindFor(kind, S.GuessKind(ps[0].core)), ps[0].core)];
    if ms.More? {
      AllAreTaken(kind, had + first, ms.rest, ps[1..]);
      assert had + first + Items(kind, ps[1..]) == had + (first + Items(kind, ps[1..]));
    } else {
      assert Items(kind, ps[1..]) == [];
      assert had + first == had + (first + []);
    }
  }

  /** Alternatives between bars, white space around each, are the array of the scalars that they stand for; but an "in"
      takes no white space there. */
  lemma BarsAreAnArray(p: S.Partial, chars: Chars, ps: seq<Padded>, ms: Members)
    requires AreItems(chars) && |ps| > 0 && (forall i :: 0 <= i < |ps| ==> IsPadded(ps[i])) && Meaning(chars) == Barred(ps)
    requires '\0' !in Barred(ps) && WellFormedMembers(ms, false) && AllStand(ms, ps)
    ensures var f := S.Predicate(p, Some(S.Any));
      S.Take(f, Text(chars)) == if p.kind == S.InKind && !Tight(ps) then None else S.Take(f, Nest(false, ms))
  {
    hide Meaning, S.Split, AllStand, Barred, S.TakeMembers, Items, IsPadded, Tight;
    BarsSplit(p.kind, ps);
    AllAreTaken(p.kind, [], ms, ps);
    assert [] + Items(p.kind, ps) == Items(p.kind, ps);
    SomeItem(p.kind, ps);
  }

  lemma SomeItem(kind: S.Kind, ps: seq<Padded>)
    requires |ps| > 0
    ensures |Items(kind, ps)| > 0
  {
  }

  // ---------------------------------------------------------------- values and bounds

  /** An operator that looks for text takes a number, true, false or null as the text that spells it. */
  lemma ScalarsAreText(p: S.Partial, v: Value, chars: Chars)
    requires p.kind.TermKind? && p.kind.op != S.Eq && p.kind.op != S.Ne && WellFormed(v) && AreItems(chars)
    requires match v
             case Bool(b) => Meaning(chars) == if b then "true" else "false"
             case Null => Meaning(chars) == "null"
             case Number(text) => Meaning(chars) == text
             case _ => false
    ensures S.Take(S.Predicate(p, Some(S.Value)), v) == S.Take(S.Predicate(p, Some(S.Value)), Text(chars))
         == Some(S.Predicate(p.(value := Some(S.Literal(S.Quoted, Meaning(chars)))), None))
  {
    hide Meaning;
  }

  /** Equality keeps the kind. */
  lemma ScalarsKeepTheirKind(p: S.Partial)
    requires p.kind == S.TermKind(S.Eq)
    ensures S.Take(S.Predicate(p, Some(S.Value)), Bool(true)) == Some(S.Predicate(p.(value := Some(S.Literal(S.Boolean, "true"))), None))
    ensures S.Take(S.Predicate(p, Some(S.Value)), Bool(false)) == Some(S.Predicate(p.(value := Some(S.Literal(S.Boolean, "false"))), None))
    ensures S.Take(S.Predicate(p, Some(S.Value)), Null) == Some(S.Predicate(p.(value := Some(S.Literal(S.Nothing, "null"))), None))
    ensures forall text :: JsonNumber.IsJsonNumber(text) ==>
              S.Take(S.Predicate(p, Some(S.Value)), Number(text)) == Some(S.Predicate(p.(value := Some(S.Literal(S.Numeral, text))), None))
  {
    hide JsonNumber.IsJsonNumber;
  }

  /** A number in quotes, white space around it, is the same bound as the number. */
  lemma QuotedNumbersAreBounds(p: S.Partial, slot: S.Slot, chars: Chars, a: string, text: string, b: string)
    requires p.kind == S.RangeKind && slot in {S.Gt, S.Gte, S.Lt, S.Lte} && AreItems(chars) && Meaning(chars) == a + text + b
    requires Blank(a) && Blank(b) && JsonNumber.IsJsonNumber(text) && '\0' !in a + text + b
    ensures S.Take(S.Predicate(p, Some(slot)), Text(chars)) == S.Take(S.Predicate(p, Some(slot)), Number(text))
         == Some(S.Predicate(p.(bounds := p.bounds[slot := S.NumberBound(text)]), None))
  {
    hide Meaning, S.IsTime, S.Trim, S.IsNumber, JsonNumber.IsJsonNumber;
    NumbersAreSolid(text);
    TrimPadding(a, text, b);
    SelectorRoundTrip.NumberIsBound(text);
  }

  lemma NumbersAreSolid(text: string)
    requires JsonNumber.IsJsonNumber(text)
    ensures |text| > 0 && Solid(text[0]) && Solid(text[|text| - 1])
  {
    var l :| JsonNumber.Matches(text, l);
  }

  /** A word in any case. */
  predicate EitherCase(word: string, lower: string, upper: string)
    requires |lower| == |upper|
  {
    |word| == |lower| && forall i :: 0 <= i < |word| ==> word[i] == lower[i] || word[i] == upper[i]
  }

  /** Three words stand for dates behind "since", in any case, and nowhere else. */
  lemma SinceWords(p: S.Partial, slot: S.Slot, chars: Chars)
    requires p.kind == S.DateKind && AreItems(chars)
    requires slot in {S.Value, S.Since, S.After, S.Before, S.Gt, S.Gte, S.Lt, S.Lte}
    requires var word := Meaning(chars);
      EitherCase(word, "now", "NOW") || EitherCase(word, "today", "TODAY") || EitherCase(word, "yesterday", "YESTERDAY")
    ensures S.Take(S.Predicate(p, Some(slot)), Text(chars))
         == if slot == S.Since then Some(S.Predicate(p.(texts := p.texts[S.Since := Meaning(chars)]), None)) else None
  {
    hide Meaning, S.IsTime, EitherCase;
    var word := Meaning(chars);
    if EitherCase(word, "now", "NOW") {
      WordLowers(word, "now", "NOW");
    } else if EitherCase(word, "today", "TODAY") {
      WordLowers(word, "today", "TODAY");
    } else {
      WordLowers(word, "yesterday", "YESTERDAY");
    }
  }

  predicate AreCases(lower: string, upper: string) {
    && 0 < |lower| == |upper|
    && forall i :: 0 <= i < |lower| ==> 'a' <= lower[i] <= 'z' && upper[i] as int + 32 == lower[i] as int
  }

  lemma WordLowers(word: string, lower: string, upper: string)
    requires AreCases(lower, upper) && EitherCase(word, lower, upper)
    ensures TextMatch.LowerAsciiText(word) == lower && '\0' !in word && !S.IsTime(word)
  {
    var l := TextMatch.LowerAsciiText(word);
    assert forall i :: 0 <= i < |word| ==> l[i] == lower[i];
    NoDate(word);
  }

  /** A date starts with a digit. */
  lemma NoDate(word: string)
    requires |word| > 0 && !('0' <= word[0] <= '9') && Solid(word[0])
    ensures !S.IsTime(word)
  {
    assert Timestamp.SpaceEnd(word, 0) == 0;
  }

  /** The searches that every record meets: for nothing, at the root, or for "contains" in any member. */
  lemma EmptySearchesMatchAll(p: S.Partial, op: S.Operator)
    requires p.kind == S.TermKind(op) && p.field.Some? && (p.value.Some? ==> p.any == [])
    ensures S.Finish(p) == Some(S.All)
       <==> && op in {S.Contains, S.IContains, S.Prefix, S.IPrefix} && p.any == [] && (p.value.None? || p.value.value.text == "")
            && (p.field.value == "/" || (op in {S.Contains, S.IContains} && p.field.value in {"/*", "/..."}))
    ensures S.Finish(p) != Some(S.All) ==> S.Finish(p) == Some(S.Term(op, p.field.value, p.value, p.any, p.ignoreCase))
  {
  }
}
