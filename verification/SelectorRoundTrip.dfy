/** Reading what the writer wrote gives the selector back. */
module SelectorRoundTrip {
  import opened Wrappers
  import opened Utf8
  import opened JsonSyntax
  import opened JsonParse
  import opened SelectorText
  import JsonNumber
  import JsonRoundTrip
  import S = Selectors
  import Timestamp

  // ---------------------------------------------------------------- the selectors that come back

  predicate PlainText(s: string) { IsUtf8(s) && !S.HasNul(s) }

  predicate IsField(field: string) { PlainText(field) && S.IsPointer(field) }

  ghost predicate IsLiteral(kind: S.Kind, literal: S.Literal) {
    && S.KindFor(kind, literal.kind) == literal.kind
    && match literal.kind
       case Quoted => IsUtf8(literal.text)
       case Numeral => JsonNumber.IsJsonNumber(literal.text)
       case Boolean => literal.text == "true" || literal.text == "false"
       case Nothing => literal.text == "null"
  }

  ghost predicate AreLiterals(kind: S.Kind, literals: seq<S.Literal>) {
    forall i :: 0 <= i < |literals| ==> IsLiteral(kind, literals[i])
  }

  ghost predicate IsBound(bound: S.Bound) {
    if bound.NumberBound? then JsonNumber.IsJsonNumber(bound.text)
    else PlainText(bound.text) && S.Trim(bound.text) == bound.text && S.IsTime(bound.text)
  }

  ghost predicate AreBounds(bounds: map<S.Slot, S.Bound>) {
    forall slot :: slot in bounds ==> S.Comparing(slot) && IsBound(bounds[slot])
  }

  predicate AreDates(texts: map<S.Slot, string>) {
    forall slot :: slot in texts ==> slot in DATE_SLOTS && PlainText(texts[slot]) && S.IsDateBound(slot, texts[slot])
  }

  /** What both parsers ensure of a selector, for well-formed text. */
  ghost predicate Producible(s: S.Selector) {
    match s
    case All => true
    case And(children) => AllProducible(children)
    case Or(children) => AllProducible(children)
    case Not(child) => Producible(child)
    case Term(op, field, value, any, ignoreCase) =>
      && IsField(field)
      && (value.Some? ==> IsLiteral(S.TermKind(op), value.value)) && AreLiterals(S.TermKind(op), any)
      && (any != [] ==> (op == S.Contains || op == S.IContains) && value.None?) && (ignoreCase ==> S.Textual(op))
    case Range(field, bounds) => IsField(field) && bounds != map[] && !S.Mixed(bounds) && AreBounds(bounds)
    case Date(field, texts) =>
      IsField(field) && texts != map[] && !S.DatesClash(texts.Keys + {S.Field}) && AreDates(texts)
    case In(field, any) => IsField(field) && any != [] && AreLiterals(S.InKind, any)
    case Exists(field) => IsField(field)
  }

  ghost predicate AllProducible(children: seq<S.Selector>) {
    |children| == 0 || (Producible(children[0]) && AllProducible(children[1..]))
  }

  /** The selector that its own text stands for: not-equal is the negation of equal, and fields are normalized once more. */
  function Again(s: S.Selector): S.Selector
    requires Producible(s)
  {
    match s
    case All => s
    case And(children) => S.And(AllAgain(children))
    case Or(children) => S.Or(AllAgain(children))
    case Not(child) => S.Not(Again(child))
    case Term(op, field, value, any, ignoreCase) =>
      if op == S.Ne then S.Not(TermAgain(S.Eq, S.Normalize(field), value, any, ignoreCase))
      else TermAgain(op, S.Normalize(field), value, any, ignoreCase)
    case Range(field, bounds) => S.Range(S.Normalize(field), bounds)
    case Date(field, texts) => S.Date(S.Normalize(field), texts)
    case In(field, any) => S.In(S.Normalize(field), any)
    case Exists(field) => S.Exists(S.Normalize(field))
  }

  function TermAgain(op: S.Operator, field: string, value: Option<S.Literal>, any: seq<S.Literal>, ignoreCase: bool): S.Selector {
    if S.MatchesAll(op, field, value, any) then S.All else S.Term(op, field, value, any, ignoreCase)
  }

  function AllAgain(children: seq<S.Selector>): seq<S.Selector>
    requires AllProducible(children)
  {
    if |children| == 0 then [] else [Again(children[0])] + AllAgain(children[1..])
  }

  // ---------------------------------------------------------------- entries of an object

  ghost predicate AreValues(es: seq<Entry>) {
    forall i :: 0 <= i < |es| ==> IsUtf8(es[i].key) && WellFormed(es[i].value)
  }

  ghost predicate AreWellFormed(vs: seq<Value>) { forall i :: 0 <= i < |vs| ==> WellFormed(vs[i]) }

  lemma {:induction false} FieldsAreWellFormed(es: seq<Entry>)
    requires |es| > 0 && AreValues(es)
    ensures WellFormedMembers(Fields(es), true)
    decreases |es|
  {
    hide WellFormed, Quote, IsUtf8;
    QuoteMeansItself(es[0].key);
    if |es| > 1 {
      FieldsAreWellFormed(es[1..]);
    }
  }

  lemma {:induction false} ElementsAreWellFormed(vs: seq<Value>)
    requires |vs| > 0 && AreWellFormed(vs)
    ensures WellFormedMembers(Elements(vs), false)
    decreases |vs|
  {
    hide WellFormed;
    if |vs| > 1 {
      ElementsAreWellFormed(vs[1..]);
    }
  }

  ghost function TakeEntry(f: S.Frame, e: Entry): Option<S.Frame>
    requires WellFormed(e.value)
  {
    var keyed := S.OnKey(f, e.key);
    if keyed.None? then None else S.Take(keyed.value, e.value)
  }

  ghost function TakeEntries(f: S.Frame, es: seq<Entry>): Option<S.Frame>
    requires AreValues(es)
    decreases |es|
  {
    if |es| == 0 then Some(f) else
    var first := TakeEntry(f, es[0]);
    if first.None? then None else TakeEntries(first.value, es[1..])
  }

  lemma {:induction false} FieldsTakeEntries(f: S.Frame, es: seq<Entry>)
    requires |es| > 0 && AreValues(es) && WellFormedMembers(Fields(es), true)
    ensures S.TakeMembers(f, Fields(es), true) == TakeEntries(f, es)
    decreases |es|
  {
    hide S.OnKey, S.Take, WellFormed, Quote, IsUtf8;
    QuoteMeansItself(es[0].key);
    var first := TakeEntry(f, es[0]);
    if |es| > 1 && first.Some? {
      FieldsTakeEntries(first.value, es[1..]);
    }
  }

  lemma {:induction false} EntriesJoin(f: S.Frame, a: seq<Entry>, b: seq<Entry>)
    requires AreValues(a) && AreValues(b)
    ensures AreValues(a + b)
    ensures TakeEntries(f, a + b) == if TakeEntries(f, a).None? then None else TakeEntries(TakeEntries(f, a).value, b)
    decreases |a|
  {
    hide TakeEntry, WellFormed, IsUtf8;
    if |a| == 0 {
      assert a + b == b;
    } else {
      assert (a + b)[1..] == a[1..] + b;
      var first := TakeEntry(f, a[0]);
      if first.Some? {
        EntriesJoin(first.value, a[1..], b);
      }
    }
  }

  // ---------------------------------------------------------------- literals

  lemma LiteralIsTaken(f: S.Frame, kind: S.Kind, literal: S.Literal)
    requires IsLiteral(kind, literal)
    ensures WellFormed(LiteralTree(literal))
    ensures S.Take(f, LiteralTree(literal)) == if literal.kind == S.Quoted then S.OnText(f, literal.text) else S.OnScalar(f, literal)
  {
    if literal.kind == S.Quoted {
      QuoteMeansItself(literal.text);
    }
  }

  lemma {:induction false} LiteralsAreTaken(kind: S.Kind, had: seq<S.Literal>, literals: seq<S.Literal>)
    requires AreLiterals(kind, literals)
    ensures AreWellFormed(LiteralTrees(literals))
    ensures |literals| > 0 ==>
              WellFormedMembers(Elements(LiteralTrees(literals)), false)
              && S.TakeMembers(S.AnyArray(kind, had), Elements(LiteralTrees(literals)), false) == Some(S.AnyArray(kind, had + literals))
    decreases |literals|
  {
    hide WellFormed, LiteralTree, S.Take, S.TakeMembers, Elements, WellFormedMembers, IsLiteral;
    if |literals| > 0 {
      var f := S.AnyArray(kind, had);
      assert IsLiteral(kind, literals[0]);
      LiteralIsTaken(f, kind, literals[0]);
      OneLiteral(kind, had, literals[0]);
      LiteralsAreTaken(kind, had + [literals[0]], literals[1..]);
      assert had + [literals[0]] + literals[1..] == had + literals;
      var vs := LiteralTrees(literals);
      assert vs[0] == LiteralTree(literals[0]) && vs[1..] == LiteralTrees(literals[1..]);
      ElementsAreWellFormed(vs);
      ElementsStep(f, vs);
      if |literals| == 1 {
        assert had + literals == had + [literals[0]];
      }
    }
  }

  lemma OneLiteral(kind: S.Kind, had: seq<S.Literal>, literal: S.Literal)
    requires IsLiteral(kind, literal)
    ensures WellFormed(LiteralTree(literal))
    ensures S.Take(S.AnyArray(kind, had), LiteralTree(literal)) == Some(S.AnyArray(kind, had + [literal]))
  {
    LiteralIsTaken(S.AnyArray(kind, had), kind, literal);
    assert S.Literal(literal.kind, literal.text) == literal;
  }

  lemma ElementsStep(f: S.Frame, vs: seq<Value>)
    requires |vs| > 0 && AreWellFormed(vs) && WellFormedMembers(Elements(vs), false)
    ensures |vs| > 1 ==> WellFormedMembers(Elements(vs[1..]), false)
    ensures S.TakeMembers(f, Elements(vs), false)
         == var first := S.Take(f, vs[0]);
            if first.None? || |vs| == 1 then first else S.TakeMembers(first.value, Elements(vs[1..]), false)
  {
    hide S.Take, WellFormed;
  }

  // ---------------------------------------------------------------- predicates

  ghost function Filled(p: S.Partial): Option<S.Frame> { Some(S.Predicate(p, None)) }

  lemma NothingTaken(f: S.Frame)
    ensures AreValues([]) && TakeEntries(f, []) == Some(f)
  {
  }

  lemma OneEntry(f: S.Frame, e: Entry)
    requires IsUtf8(e.key) && WellFormed(e.value)
    ensures AreValues([e]) && TakeEntries(f, [e]) == TakeEntry(f, e)
  {
    hide TakeEntry;
    var es := [e];
    assert es[0] == e && es[1..] == [];
    var first := TakeEntry(f, e);
    if first.Some? {
      NothingTaken(first.value);
    }
  }

  lemma KeysAreRead(kind: S.Kind, slot: S.Slot)
    ensures IsUtf8(SlotName(slot)) && !S.HasNul(SlotName(slot))
    ensures S.SlotOf(kind, SlotName(slot)).Some? ==> S.SlotOf(kind, SlotName(slot)).value == slot
  {
    hide IsUtf8, S.HasNul, S.SlotOf, SlotName;
    NamesAreAscii(slot);
    NamesName(kind, slot);
    AsciiIsUtf8(SlotName(slot));
  }

  lemma NamesAreAscii(slot: S.Slot)
    ensures !S.HasNul(SlotName(slot)) && forall i :: 0 <= i < |SlotName(slot)| ==> SlotName(slot)[i] as int < 0x80
  {
    hide S.SlotOf;
    match slot
    case Field => case Value => case Any => case IgnoreCase => case Gt => case Gte => case Lt => case Lte =>
    case After => case Before => case Since =>
  }

  lemma NamesName(kind: S.Kind, slot: S.Slot)
    ensures S.SlotOf(kind, SlotName(slot)).Some? ==> S.SlotOf(kind, SlotName(slot)).value == slot
  {
    match slot
    case Field => case Value => case Any => case IgnoreCase => case Gt => case Gte => case Lt => case Lte =>
    case After => case Before => case Since =>
  }

  /** A member whose key is its slot's own name. */
  lemma KeyedEntry(p: S.Partial, slot: S.Slot, v: Value)
    requires S.SlotOf(p.kind, SlotName(slot)).Some? && slot !in p.seen && WellFormed(v)
    ensures AreValues([Entry(SlotName(slot), v)])
    ensures TakeEntries(S.Predicate(p, None), [Entry(SlotName(slot), v)])
         == S.Take(S.Predicate(p.(seen := p.seen + {slot}), Some(slot)), v)
  {
    hide S.Take, WellFormed, S.SlotOf, SlotName, IsUtf8, S.HasNul;
    KeysAreRead(p.kind, slot);
    OneEntry(S.Predicate(p, None), Entry(SlotName(slot), v));
  }

  lemma FieldIsTaken(kind: S.Kind, field: string)
    requires IsField(field)
    ensures AreValues([FieldEntry(field)])
    ensures TakeEntries(S.Predicate(S.Fresh(kind), None), [FieldEntry(field)])
         == Filled(S.Fresh(kind).(field := Some(S.Normalize(field)), seen := {S.Field}))
  {
    hide Quote, IsUtf8, S.Normalize, S.HasNul;
    PlainIsTaken(S.Predicate(S.Fresh(kind).(seen := {S.Field}), Some(S.Field)), field);
    KeyedEntry(S.Fresh(kind), S.Field, Text(Quote(field)));
    assert {} + {S.Field} == {S.Field};
  }

  lemma ValueIsTaken(p: S.Partial, value: Option<S.Literal>)
    requires p.kind.TermKind? && p.value.None? && S.Value !in p.seen && (value.Some? ==> IsLiteral(p.kind, value.value))
    ensures AreValues(ValueEntries(value))
    ensures TakeEntries(S.Predicate(p, None), ValueEntries(value))
         == Filled(p.(value := value, seen := p.seen + (if value.Some? then {S.Value} else {})))
  {
    var seen := p.seen + {S.Value};
    if value.None? {
      NothingTaken(S.Predicate(p, None));
      assert p.seen + {} == p.seen;
    } else {
      var literal := value.value;
      LiteralIsTaken(S.Predicate(p.(seen := seen), Some(S.Value)), p.kind, literal);
      KeyedEntry(p, S.Value, LiteralTree(literal));
      assert S.Literal(literal.kind, literal.text) == literal;
    }
  }

  lemma AnyIsTaken(p: S.Partial, any: seq<S.Literal>)
    requires S.Anys(p.kind) && p.any == [] && S.Any !in p.seen && AreLiterals(p.kind, any)
    ensures AreValues(AnyEntries(any))
    ensures TakeEntries(S.Predicate(p, None), AnyEntries(any))
         == Filled(p.(any := any, seen := p.seen + (if any == [] then {} else {S.Any})))
  {
    if any == [] {
      NothingTaken(S.Predicate(p, None));
      assert p.seen + {} == p.seen;
    } else {
      ArrayIsTaken(p.(seen := p.seen + {S.Any}), any);
      KeyedEntry(p, S.Any, Array(LiteralTrees(any)));
    }
  }

  lemma ArrayIsTaken(p: S.Partial, any: seq<S.Literal>)
    requires p.any == [] && any != [] && AreLiterals(p.kind, any)
    ensures WellFormed(Array(LiteralTrees(any)))
    ensures S.Take(S.Predicate(p, Some(S.Any)), Array(LiteralTrees(any))) == Filled(p.(any := any))
  {
    hide S.TakeMembers, Elements, LiteralTrees, AreLiterals, WellFormedMembers;
    LiteralsAreTaken(p.kind, [], any);
    assert [] + any == any;
  }

  lemma CaseIsTaken(p: S.Partial, ignoreCase: bool)
    requires p.kind.TermKind? && !p.ignoreCase && S.IgnoreCase !in p.seen && (ignoreCase ==> S.Textual(p.kind.op))
    ensures AreValues(CaseEntries(ignoreCase))
    ensures TakeEntries(S.Predicate(p, None), CaseEntries(ignoreCase))
         == Filled(p.(ignoreCase := ignoreCase, seen := p.seen + (if ignoreCase then {S.IgnoreCase} else {})))
  {
    if !ignoreCase {
      NothingTaken(S.Predicate(p, None));
      assert p.seen + {} == p.seen;
    } else {
      var done := p.(seen := p.seen + {S.IgnoreCase});
      assert S.Take(S.Predicate(done, Some(S.IgnoreCase)), Bool(true)) == Filled(done.(ignoreCase := true)) by { CaseIsStored(done); }
      KeyedEntry(p, S.IgnoreCase, Bool(true));
    }
  }

  lemma CaseIsStored(p: S.Partial)
    ensures S.Take(S.Predicate(p, Some(S.IgnoreCase)), Bool(true)) == Filled(p.(ignoreCase := true))
  {
  }

  // ---------------------------------------------------------------- bounds

  /** The map with the other's entries at the slots. */
  ghost function With<T>(had: map<S.Slot, T>, more: map<S.Slot, T>, slots: seq<S.Slot>): map<S.Slot, T>
    decreases |slots|
  {
    if |slots| == 0 then had
    else With(if slots[0] in more then had[slots[0] := more[slots[0]]] else had, more, slots[1..])
  }

  ghost function Seen(had: set<S.Slot>, keys: set<S.Slot>, slots: seq<S.Slot>): set<S.Slot>
    decreases |slots|
  {
    if |slots| == 0 then had else Seen(if slots[0] in keys then had + {slots[0]} else had, keys, slots[1..])
  }

  lemma {:induction false} WithIs<T>(had: map<S.Slot, T>, more: map<S.Slot, T>, slots: seq<S.Slot>)
    ensures forall k :: k in With(had, more, slots) <==> k in had || (k in more && k in slots)
    ensures forall k :: k in With(had, more, slots) ==> With(had, more, slots)[k] == if k in more && k in slots then more[k] else had[k]
    decreases |slots|
  {
    if |slots| > 0 {
      WithIs(if slots[0] in more then had[slots[0] := more[slots[0]]] else had, more, slots[1..]);
      assert slots == [slots[0]] + slots[1..];
    }
  }

  lemma {:induction false} SeenIs(had: set<S.Slot>, keys: set<S.Slot>, slots: seq<S.Slot>)
    ensures Seen(had, keys, slots) == had + (set k | k in keys && k in slots)
    decreases |slots|
  {
    if |slots| > 0 {
      assert slots == [slots[0]] + slots[1..];
      SeenIs(if slots[0] in keys then had + {slots[0]} else had, keys, slots[1..]);
    }
  }

  predicate Distinct(slots: seq<S.Slot>) { forall i, j :: 0 <= i < j < |slots| ==> slots[i] != slots[j] }

  predicate Unseen(seen: set<S.Slot>, slots: seq<S.Slot>) { forall i :: 0 <= i < |slots| ==> slots[i] !in seen }

  lemma NumberIsBound(text: string)
    requires JsonNumber.IsJsonNumber(text)
    ensures S.Trim(text) == text && !S.IsTime(text) && S.IsNumber(text)
  {
    JsonNumber.LayoutIsUnique(text);
    var l :| JsonNumber.Matches(text, l);
    assert |text| > 0 && !Timestamp.IsSpace(text[0]) && !Timestamp.IsSpace(text[|text| - 1]);
    assert Timestamp.SpaceEnd(text, 0) == 0;
    NumberIsNoDate(text, l);
  }

  lemma NumberIsNoDate(text: string, l: JsonNumber.Layout)
    requires JsonNumber.Matches(text, l)
    ensures Timestamp.DateAt(text, 0).None?
  {
    assert |text| >= 5 && text[4] == '-' ==> JsonNumber.IsMark(text[3]) || l.start > 0;
  }

  lemma BoundIsTaken(p: S.Partial, slot: S.Slot, bound: S.Bound)
    requires p.kind.RangeKind? && S.Comparing(slot) && IsBound(bound)
    ensures WellFormed(BoundTree(bound))
    ensures S.Take(S.Predicate(p, Some(slot)), BoundTree(bound)) == Filled(p.(bounds := p.bounds[slot := bound]))
  {
    hide S.Trim, S.IsTime, IsUtf8, S.HasNul, S.OnText, S.OnScalar, Quote;
    if bound.NumberBound? {
      NumberIsStored(p, slot, bound.text);
    } else {
      TimeIsStored(p, slot, bound.text);
      PlainIsTaken(S.Predicate(p, Some(slot)), bound.text);
    }
  }

  lemma NumberIsStored(p: S.Partial, slot: S.Slot, text: string)
    requires p.kind.RangeKind? && S.Comparing(slot) && JsonNumber.IsJsonNumber(text)
    ensures S.OnScalar(S.Predicate(p, Some(slot)), S.Literal(S.Numeral, text)) == Filled(p.(bounds := p.bounds[slot := S.NumberBound(text)]))
  {
    hide S.Trim, S.IsTime, S.IsNumber;
    NumberIsBound(text);
  }

  lemma TimeIsStored(p: S.Partial, slot: S.Slot, text: string)
    requires p.kind.RangeKind? && S.Comparing(slot) && !S.HasNul(text) && S.Trim(text) == text && S.IsTime(text)
    ensures S.OnText(S.Predicate(p, Some(slot)), text) == Filled(p.(bounds := p.bounds[slot := S.TimeBound(text)]))
  {
    hide S.HasNul, S.Trim, S.IsTime, S.IsNumber;
  }

  lemma PlainIsTaken(f: S.Frame, text: string)
    requires IsUtf8(text)
    ensures WellFormed(Text(Quote(text))) && S.Take(f, Text(Quote(text))) == S.OnText(f, text)
  {
    hide Quote, IsUtf8, AreItems, Meaning, S.OnText;
    QuoteMeansItself(text);
  }

  lemma {:induction false} BoundsAreTaken(p: S.Partial, bounds: map<S.Slot, S.Bound>, slots: seq<S.Slot>)
    requires p.kind.RangeKind? && AreBounds(bounds) && Distinct(slots) && Unseen(p.seen, slots)
    requires forall i :: 0 <= i < |slots| ==> S.Comparing(slots[i])
    ensures AreValues(BoundEntries(bounds, slots))
    ensures TakeEntries(S.Predicate(p, None), BoundEntries(bounds, slots))
         == Filled(p.(bounds := With(p.bounds, bounds, slots), seen := Seen(p.seen, bounds.Keys, slots)))
    decreases |slots|
  {
    hide S.Take, WellFormed, IsUtf8, SlotName, BoundTree, IsBound, TakeEntry;
    if |slots| == 0 {
      NothingTaken(S.Predicate(p, None));
    } else {
      var slot, rest := slots[0], slots[1..];
      if slot in bounds {
        var next := p.(bounds := p.bounds[slot := bounds[slot]], seen := p.seen + {slot});
        assert S.SlotOf(p.kind, SlotName(slot)).Some? by { RangeNames(slot); }
        BoundIsTaken(p.(seen := p.seen + {slot}), slot, bounds[slot]);
        KeyedEntry(p, slot, BoundTree(bounds[slot]));
        BoundsAreTaken(next, bounds, rest);
        EntriesJoin(S.Predicate(p, None), [Entry(SlotName(slot), BoundTree(bounds[slot]))], BoundEntries(bounds, rest));
      } else {
        BoundsAreTaken(p, bounds, rest);
        assert [] + BoundEntries(bounds, rest) == BoundEntries(bounds, rest);
      }
    }
  }

  lemma RangeNames(slot: S.Slot)
    requires S.Comparing(slot)
    ensures S.SlotOf(S.RangeKind, SlotName(slot)).Some?
  {
  }

  lemma TextIsTaken(p: S.Partial, slot: S.Slot, text: string)
    requires p.kind.DateKind? && slot in DATE_SLOTS && PlainText(text) && S.IsDateBound(slot, text)
    ensures WellFormed(Text(Quote(text)))
    ensures S.Take(S.Predicate(p, Some(slot)), Text(Quote(text))) == Filled(p.(texts := p.texts[slot := text]))
  {
    hide IsUtf8, S.HasNul, S.IsDateBound, S.OnText, Quote;
    DateIsStored(p, slot, text);
    PlainIsTaken(S.Predicate(p, Some(slot)), text);
  }

  lemma DateIsStored(p: S.Partial, slot: S.Slot, text: string)
    requires p.kind.DateKind? && slot in DATE_SLOTS && !S.HasNul(text) && S.IsDateBound(slot, text)
    ensures S.OnText(S.Predicate(p, Some(slot)), text) == Filled(p.(texts := p.texts[slot := text]))
  {
    hide S.HasNul, S.IsDateBound;
  }

  lemma {:induction false} TextsAreTaken(p: S.Partial, texts: map<S.Slot, string>, slots: seq<S.Slot>)
    requires p.kind.DateKind? && AreDates(texts) && Distinct(slots) && Unseen(p.seen, slots)
    ensures AreValues(TextEntries(texts, slots))
    ensures TakeEntries(S.Predicate(p, None), TextEntries(texts, slots))
         == Filled(p.(texts := With(p.texts, texts, slots), seen := Seen(p.seen, texts.Keys, slots)))
    decreases |slots|
  {
    hide S.Take, WellFormed, IsUtf8, SlotName, Quote, S.IsDateBound, TakeEntry, S.HasNul;
    if |slots| == 0 {
      NothingTaken(S.Predicate(p, None));
    } else {
      var slot, rest := slots[0], slots[1..];
      if slot in texts {
        var next := p.(texts := p.texts[slot := texts[slot]], seen := p.seen + {slot});
        assert S.SlotOf(p.kind, SlotName(slot)).Some? by { DateNames(slot); }
        TextIsTaken(p.(seen := p.seen + {slot}), slot, texts[slot]);
        KeyedEntry(p, slot, Text(Quote(texts[slot])));
        TextsAreTaken(next, texts, rest);
        EntriesJoin(S.Predicate(p, None), [Entry(SlotName(slot), Text(Quote(texts[slot])))], TextEntries(texts, rest));
      } else {
        TextsAreTaken(p, texts, rest);
        assert [] + TextEntries(texts, rest) == TextEntries(texts, rest);
      }
    }
  }

  lemma DateNames(slot: S.Slot)
    requires slot in DATE_SLOTS
    ensures S.SlotOf(S.DateKind, SlotName(slot)).Some?
  {
  }

  // ---------------------------------------------------------------- selectors

  lemma ObjectIsTaken(f: S.Frame, es: seq<Entry>, g: S.Frame, h: S.Frame)
    requires |es| > 0 && AreValues(es) && S.OpenObject(f) == Some(g) && TakeEntries(g, es) == Some(h)
    ensures WellFormed(Object(es)) && S.Take(f, Object(es)) == S.CloseObject(f, h)
  {
    hide TakeEntries, AreValues, S.TakeMembers, Fields, WellFormedMembers;
    FieldsAreWellFormed(es);
    FieldsTakeEntries(g, es);
  }

  /** A selector that is one operator over its operand. */
  lemma OperatorIsTaken(f: S.Frame, key: string, v: Value, body: S.Selector)
    requires S.OpenObject(f) == Some(S.NODE) && S.KindOf(key).Some? && IsUtf8(key) && !S.HasNul(key) && WellFormed(v)
    requires S.Take(S.Node(S.KindOf(key), true, S.All), v) == Some(S.Node(S.KindOf(key), false, body))
    ensures WellFormed(Object([Entry(key, v)]))
    ensures S.Take(f, Object([Entry(key, v)])) == Some(S.Put(f, body))
  {
    hide S.Take, IsUtf8, S.HasNul, S.KindOf, WellFormed, Object, TakeEntries, AreValues;
    OneEntry(S.NODE, Entry(key, v));
    assert TakeEntry(S.NODE, Entry(key, v)) == Some(S.Node(S.KindOf(key), false, body));
    ObjectIsTaken(f, [Entry(key, v)], S.NODE, S.Node(S.KindOf(key), false, body));
  }

  ghost predicate Takes(key: string, v: Value, body: S.Selector) {
    && S.KindOf(key).Some? && IsUtf8(key) && !S.HasNul(key) && WellFormed(v)
    && S.Take(S.Node(S.KindOf(key), true, S.All), v) == Some(S.Node(S.KindOf(key), false, body))
  }

  lemma NameIsKey(key: string)
    requires forall i :: 0 <= i < |key| ==> 0 < key[i] as int < 0x80
    ensures IsUtf8(key) && !S.HasNul(key)
  {
    AsciiIsUtf8(key);
  }

  ghost function TermPartial(kind: S.Kind, field: string, value: Option<S.Literal>, any: seq<S.Literal>, ignoreCase: bool, seen: set<S.Slot>): S.Partial {
    S.Partial(kind, Some(field), value, any, ignoreCase, map[], map[], seen)
  }

  lemma TermEntriesAreTaken(op: S.Operator, field: string, value: Option<S.Literal>, any: seq<S.Literal>, ignoreCase: bool) returns (seen: set<S.Slot>)
    requires Producible(S.Term(op, field, value, any, ignoreCase)) && op != S.Ne
    ensures var es := [FieldEntry(field)] + ValueEntries(value) + AnyEntries(any) + CaseEntries(ignoreCase);
            AreValues(es)
            && TakeEntries(S.Predicate(S.Fresh(S.TermKind(op)), None), es)
            == Filled(TermPartial(S.TermKind(op), S.Normalize(field), value, any, ignoreCase, seen))
  {
    hide TakeEntries, AreValues, FieldEntry, ValueEntries, AnyEntries, CaseEntries, IsLiteral, S.MatchesAll, PlainText, S.IsPointer;
    var kind := S.TermKind(op);
    var p := S.Fresh(kind);
    FieldIsTaken(kind, field);
    var p1 := p.(field := Some(S.Normalize(field)), seen := {S.Field});
    ValueIsTaken(p1, value);
    var p2 := p1.(value := value, seen := p1.seen + (if value.Some? then {S.Value} else {}));
    EntriesJoin(S.Predicate(p, None), [FieldEntry(field)], ValueEntries(value));
    var p3 := p2;
    if any == [] {
      assert AnyEntries(any) == [] by { NoEntries(); }
      NothingTaken(S.Predicate(p2, None));
      assert p2.any == any;
    } else {
      AnyIsTaken(p2, any);
      p3 := p2.(any := any, seen := p2.seen + {S.Any});
    }
    EntriesJoin(S.Predicate(p, None), [FieldEntry(field)] + ValueEntries(value), AnyEntries(any));
    CaseIsTaken(p3, ignoreCase);
    EntriesJoin(S.Predicate(p, None), [FieldEntry(field)] + ValueEntries(value) + AnyEntries(any), CaseEntries(ignoreCase));
    seen := p3.seen + (if ignoreCase then {S.IgnoreCase} else {});
  }

  lemma NoEntries()
    ensures AnyEntries([]) == []
  {
  }

  lemma TermIsTaken(op: S.Operator, field: string, value: Option<S.Literal>, any: seq<S.Literal>, ignoreCase: bool)
    requires Producible(S.Term(op, field, value, any, ignoreCase)) && op != S.Ne
    ensures Takes(OpName(op), TermTree(field, value, any, ignoreCase), TermAgain(op, S.Normalize(field), value, any, ignoreCase))
  {
    hide TakeEntries, AreValues, FieldEntry, ValueEntries, AnyEntries, CaseEntries, IsLiteral, S.Take, WellFormed, IsUtf8, S.HasNul, PlainText, S.IsPointer;
    var kind := S.TermKind(op);
    var seen := TermEntriesAreTaken(op, field, value, any, ignoreCase);
    OpIsKey(op);
    ObjectIsTaken(S.Node(Some(kind), true, S.All), [FieldEntry(field)] + ValueEntries(value) + AnyEntries(any) + CaseEntries(ignoreCase),
                  S.Predicate(S.Fresh(kind), None), S.Predicate(TermPartial(kind, S.Normalize(field), value, any, ignoreCase, seen), None));
  }

  lemma OpIsKey(op: S.Operator)
    requires op != S.Ne
    ensures IsUtf8(OpName(op)) && !S.HasNul(OpName(op)) && S.KindOf(OpName(op)) == Some(S.TermKind(op))
  {
    NameIsKey(OpName(op));
  }

  lemma RangeIsTaken(field: string, bounds: map<S.Slot, S.Bound>)
    requires Producible(S.Range(field, bounds))
    ensures Takes("range", Object([FieldEntry(field)] + BoundEntries(bounds, RANGE_SLOTS)), S.Range(S.Normalize(field), bounds))
  {
    hide TakeEntries, AreValues, S.Take, WellFormed, IsUtf8, S.HasNul, AreBounds, Object, S.Mixed, FieldEntry, BoundEntries, PlainText, S.IsPointer, S.Normalize;
    var es := [FieldEntry(field)] + BoundEntries(bounds, RANGE_SLOTS);
    var seen := RangeEntriesAreTaken(field, bounds);
    var p := S.Fresh(S.RangeKind).(field := Some(S.Normalize(field)), bounds := bounds, seen := seen);
    NameIsKey("range");
    ObjectIsTaken(S.Node(Some(S.RangeKind), true, S.All), es, S.Predicate(S.Fresh(S.RangeKind), None), S.Predicate(p, None));
  }

  lemma RangeEntriesAreTaken(field: string, bounds: map<S.Slot, S.Bound>) returns (seen: set<S.Slot>)
    requires IsField(field) && AreBounds(bounds)
    ensures var es := [FieldEntry(field)] + BoundEntries(bounds, RANGE_SLOTS);
            AreValues(es) && TakeEntries(S.Predicate(S.Fresh(S.RangeKind), None), es)
            == Filled(S.Fresh(S.RangeKind).(field := Some(S.Normalize(field)), bounds := bounds, seen := seen))
  {
    hide TakeEntries, AreValues, FieldEntry, BoundEntries, IsBound, IsUtf8, With, Seen, PlainText, S.IsPointer, S.Normalize;
    var p := S.Fresh(S.RangeKind).(field := Some(S.Normalize(field)), seen := {S.Field});
    FieldIsTaken(S.RangeKind, field);
    BoundsAreTaken(p, bounds, RANGE_SLOTS);
    EntriesJoin(S.Predicate(S.Fresh(S.RangeKind), None), [FieldEntry(field)], BoundEntries(bounds, RANGE_SLOTS));
    WithIs(map[], bounds, RANGE_SLOTS);
    assert With(map[], bounds, RANGE_SLOTS) == bounds;
    seen := Seen(p.seen, bounds.Keys, RANGE_SLOTS);
  }

  lemma DateIsTaken(field: string, texts: map<S.Slot, string>)
    requires Producible(S.Date(field, texts))
    ensures Takes("date", Object([FieldEntry(field)] + TextEntries(texts, DATE_SLOTS)), S.Date(S.Normalize(field), texts))
  {
    hide TakeEntries, AreValues, S.Take, WellFormed, IsUtf8, S.HasNul, AreDates, Object, S.DatesClash, FieldEntry, TextEntries, PlainText,
      S.IsPointer, S.Normalize, S.CloseObject;
    var es := [FieldEntry(field)] + TextEntries(texts, DATE_SLOTS);
    var p := S.Fresh(S.DateKind).(field := Some(S.Normalize(field)), texts := texts, seen := texts.Keys + {S.Field});
    DateEntriesAreTaken(field, texts);
    NameIsKey("date");
    ObjectIsTaken(S.Node(Some(S.DateKind), true, S.All), es, S.Predicate(S.Fresh(S.DateKind), None), S.Predicate(p, None));
    DateCloses(p);
  }

  lemma DateCloses(p: S.Partial)
    requires p.kind.DateKind? && p.field.Some? && p.texts != map[] && !S.DatesClash(p.seen)
    ensures S.CloseObject(S.Node(Some(S.DateKind), true, S.All), S.Predicate(p, None)) == Some(S.Node(Some(S.DateKind), false, S.Date(p.field.value, p.texts)))
  {
    hide S.DatesClash;
  }

  lemma DateEntriesAreTaken(field: string, texts: map<S.Slot, string>)
    requires IsField(field) && AreDates(texts)
    ensures var es := [FieldEntry(field)] + TextEntries(texts, DATE_SLOTS);
            AreValues(es) && TakeEntries(S.Predicate(S.Fresh(S.DateKind), None), es)
            == Filled(S.Fresh(S.DateKind).(field := Some(S.Normalize(field)), texts := texts, seen := texts.Keys + {S.Field}))
  {
    hide TakeEntries, AreValues, FieldEntry, TextEntries, AreDates, IsUtf8, With, Seen, PlainText, S.IsPointer;
    var p := S.Fresh(S.DateKind).(field := Some(S.Normalize(field)), seen := {S.Field});
    FieldIsTaken(S.DateKind, field);
    TextsAreTaken(p, texts, DATE_SLOTS);
    EntriesJoin(S.Predicate(S.Fresh(S.DateKind), None), [FieldEntry(field)], TextEntries(texts, DATE_SLOTS));
    AllDates(texts);
  }

  lemma AllDates(texts: map<S.Slot, string>)
    requires AreDates(texts)
    ensures With(map[], texts, DATE_SLOTS) == texts && Seen({S.Field}, texts.Keys, DATE_SLOTS) == texts.Keys + {S.Field}
  {
    hide PlainText, S.IsDateBound, With, Seen;
    assert forall slot :: slot in texts ==> slot in DATE_SLOTS;
    var slots := DATE_SLOTS;
    WithIs(map[], texts, slots);
    SeenIs({S.Field}, texts.Keys, slots);
  }

  lemma InIsTaken(field: string, any: seq<S.Literal>)
    requires Producible(S.In(field, any))
    ensures Takes("in", Object([FieldEntry(field), Entry("any", Array(LiteralTrees(any)))]), S.In(S.Normalize(field), any))
  {
    hide TakeEntries, AreValues, S.Take, WellFormed, IsUtf8, S.HasNul, AreLiterals, Object, FieldEntry, LiteralTrees, PlainText, S.IsPointer,
      S.Normalize, S.CloseObject;
    var es := [FieldEntry(field), Entry("any", Array(LiteralTrees(any)))];
    var p := InEntriesAreTaken(field, any);
    NameIsKey("in");
    ObjectIsTaken(S.Node(Some(S.InKind), true, S.All), es, S.Predicate(S.Fresh(S.InKind), None), S.Predicate(p, None));
    InCloses(p);
  }

  lemma InEntriesAreTaken(field: string, any: seq<S.Literal>) returns (p: S.Partial)
    requires IsField(field) && any != [] && AreLiterals(S.InKind, any)
    ensures p.kind.InKind? && p.field == Some(S.Normalize(field)) && p.any == any
    ensures var es := [FieldEntry(field), Entry("any", Array(LiteralTrees(any)))];
            AreValues(es) && TakeEntries(S.Predicate(S.Fresh(S.InKind), None), es) == Filled(p)
  {
    hide TakeEntries, AreValues, FieldEntry, LiteralTrees, IsUtf8, PlainText, S.IsPointer, S.Normalize, AreLiterals;
    FieldIsTaken(S.InKind, field);
    var p1 := S.Fresh(S.InKind).(field := Some(S.Normalize(field)), seen := {S.Field});
    AnyIsTaken(p1, any);
    EntriesJoin(S.Predicate(S.Fresh(S.InKind), None), [FieldEntry(field)], AnyEntries(any));
    assert [FieldEntry(field)] + AnyEntries(any) == [FieldEntry(field), Entry("any", Array(LiteralTrees(any)))];
    p := p1.(any := any, seen := p1.seen + {S.Any});
  }

  lemma InCloses(p: S.Partial)
    requires p.kind.InKind? && p.field.Some? && p.any != []
    ensures S.CloseObject(S.Node(Some(S.InKind), true, S.All), S.Predicate(p, None)) == Some(S.Node(Some(S.InKind), false, S.In(p.field.value, p.any)))
  {
  }

  lemma ExistsIsTaken(field: string)
    requires Producible(S.Exists(field))
    ensures Takes("exists", Text(Quote(field)), S.Exists(S.Normalize(field)))
  {
    hide S.Normalize, IsUtf8, S.HasNul, S.KindOf, Quote;
    PlainIsTaken(S.Node(S.KindOf("exists"), true, S.All), field);
    NameIsKey("exists");
    assert S.KindOf("exists") == Some(S.ExistsKind) by { ExistsIsKind(); }
  }

  lemma ExistsIsKind()
    ensures S.KindOf("exists") == Some(S.ExistsKind)
  {
  }

  lemma UnequalIsEqual(field: string, value: Option<S.Literal>, any: seq<S.Literal>, ignoreCase: bool)
    requires Producible(S.Term(S.Ne, field, value, any, ignoreCase))
    ensures Producible(S.Term(S.Eq, field, value, any, ignoreCase))
  {
    hide IsUtf8, PlainText, S.IsPointer;
    assert value.Some? ==> IsLiteral(S.TermKind(S.Ne), value.value);
  }

  /** The selector's tree leaves the selector in any frame that takes one. */
  lemma {:induction false} SelectorIsTaken(f: S.Frame, s: S.Selector)
    requires Producible(s) && S.OpenObject(f) == Some(S.NODE)
    ensures WellFormed(Tree(s)) && S.Take(f, Tree(s)) == Some(S.Put(f, Again(s)))
    decreases s
  {
    hide S.Take, WellFormed, IsUtf8, S.HasNul, Quote, Object, TermTree, S.MatchesAll, S.Mixed, S.DatesClash, Array, S.OpenObject, PlainText, S.IsPointer;
    match s
    case All => EmptyIsTaken(f);
    case And(children) =>
      ListIsTaken(children, true);
      OperatorIsTaken(f, "and", Array(Trees(children)), Again(s));
    case Or(children) =>
      ListIsTaken(children, false);
      OperatorIsTaken(f, "or", Array(Trees(children)), Again(s));
    case Not(child) =>
      NegationOpens();
      SelectorIsTaken(S.Node(Some(S.NotKind), true, S.All), child);
      NegationIsTaken(f, Tree(child), Again(child));
    case Term(op, field, value, any, ignoreCase) =>
      if op == S.Ne {
        NegationOpens();
        UnequalIsEqual(field, value, any, ignoreCase);
        TermIsTaken(S.Eq, field, value, any, ignoreCase);
        var body := TermAgain(S.Eq, S.Normalize(field), value, any, ignoreCase);
        OperatorIsTaken(S.Node(Some(S.NotKind), true, S.All), "eq", TermTree(field, value, any, ignoreCase), body);
        NegationIsTaken(f, Object([Entry("eq", TermTree(field, value, any, ignoreCase))]), body);
      } else {
        TermIsTaken(op, field, value, any, ignoreCase);
        OperatorIsTaken(f, OpName(op), TermTree(field, value, any, ignoreCase), Again(s));
      }
    case Range(field, bounds) =>
      RangeIsTaken(field, bounds);
      OperatorIsTaken(f, "range", Object([FieldEntry(field)] + BoundEntries(bounds, RANGE_SLOTS)), Again(s));
    case Date(field, texts) =>
      DateIsTaken(field, texts);
      OperatorIsTaken(f, "date", Object([FieldEntry(field)] + TextEntries(texts, DATE_SLOTS)), Again(s));
    case In(field, any) =>
      InIsTaken(field, any);
      OperatorIsTaken(f, "in", Object([FieldEntry(field), Entry("any", Array(LiteralTrees(any)))]), Again(s));
    case Exists(field) =>
      ExistsIsTaken(field);
      OperatorIsTaken(f, "exists", Text(Quote(field)), Again(s));
  }

  lemma EmptyIsTaken(f: S.Frame)
    requires S.OpenObject(f) == Some(S.NODE)
    ensures WellFormed(Object([])) && S.Take(f, Object([])) == Some(S.Put(f, S.All))
  {
  }

  lemma NegationOpens()
    ensures S.OpenObject(S.Node(Some(S.NotKind), true, S.All)) == Some(S.NODE)
  {
  }

  lemma NegationIsTaken(f: S.Frame, v: Value, body: S.Selector)
    requires S.OpenObject(f) == Some(S.NODE) && WellFormed(v)
    requires S.Take(S.Node(Some(S.NotKind), true, S.All), v) == Some(S.Put(S.Node(Some(S.NotKind), true, S.All), body))
    ensures WellFormed(Object([Entry("not", v)])) && S.Take(f, Object([Entry("not", v)])) == Some(S.Put(f, S.Not(body)))
  {
    hide S.Take, WellFormed, IsUtf8, S.HasNul, Object;
    NameIsKey("not");
    OperatorIsTaken(f, "not", v, S.Not(body));
  }

  lemma {:induction false} ListIsTaken(children: seq<S.Selector>, all: bool)
    requires AllProducible(children)
    ensures Takes(if all then "and" else "or", Array(Trees(children)), if all then S.And(AllAgain(children)) else S.Or(AllAgain(children)))
    decreases children, 1
  {
    hide S.TakeMembers, IsUtf8, S.HasNul, WellFormedMembers, Trees, Elements, AllProducible;
    NameIsKey(if all then "and" else "or");
    if |children| > 0 {
      ChildrenAreTaken([], children);
      assert [] + AllAgain(children) == AllAgain(children);
    }
  }

  lemma {:induction false} ChildrenAreTaken(had: seq<S.Selector>, children: seq<S.Selector>)
    requires AllProducible(children)
    ensures AreWellFormed(Trees(children))
    ensures |children| > 0 ==>
              WellFormedMembers(Elements(Trees(children)), false)
              && S.TakeMembers(S.Children(had), Elements(Trees(children)), false) == Some(S.Children(had + AllAgain(children)))
    decreases children, 0
  {
    hide S.Take, S.TakeMembers, Elements, WellFormed, WellFormedMembers, Producible, Tree, Again;
    if |children| > 0 {
      var f := S.Children(had);
      var first := Again(children[0]);
      SelectorIsTaken(f, children[0]);
      ChildrenAreTaken(had + [first], children[1..]);
      assert had + [first] + AllAgain(children[1..]) == had + AllAgain(children);
      var vs := Trees(children);
      assert vs[0] == Tree(children[0]) && vs[1..] == Trees(children[1..]);
      ElementsAreWellFormed(vs);
      ElementsStep(f, vs);
      if |children| == 1 {
        assert had + AllAgain(children) == had + [first];
      }
    }
  }

  // ---------------------------------------------------------------- texts

  lemma {:induction false} NestingFits(v: Value)
    ensures Nesting(v) <= |Print(v)|
  {
    if v.Nest? {
      NestingOfFits(v.members, v.braces);
    }
  }

  lemma {:induction false} NestingOfFits(ms: Members, braces: bool)
    ensures NestingOf(ms) < |PrintMembers(ms, braces)|
  {
    NestingFits(ms.member.value);
    if ms.More? {
      NestingOfFits(ms.rest, braces);
    }
  }

  /** Writing a selector and reading the text: kinds and texts of literals and bounds are kept. */
  lemma WrittenReadsBack(s: S.Selector)
    requires Producible(s)
    ensures S.Read(Print(Tree(s))) == Some(Again(s))
  {
    hide S.Take, Tree, Producible, ParseValue;
    var text := Print(Tree(s));
    SelectorIsTaken(S.Bottom(None), s);
    NestingFits(Tree(s));
    JsonRoundTrip.ReadingInvertsPrinting(Tree(s), -|text|);
    JsonRoundTrip.ValueStart(text, 0, Tree(s)) by { assert text[0..|text|] == text; }
    assert SpaceEnd(text, 0) == 0 && SpaceEnd(text, |text|) == |text|;
  }
}
