/** Every selector that the JSON parser builds can be written, and reading the text gives it back. */
module SelectorReading {
  import opened Wrappers
  import opened Utf8
  import opened JsonSyntax
  import opened SelectorText
  import opened SelectorRoundTrip
  import opened SelectorFields
  import JsonNumber
  import JsonParse
  import JsonRoundTrip
  import MutationPath
  import S = Selectors
  import Timestamp

  // ---------------------------------------------------------------- texts

  lemma UnitIsUtf8(u: string)
    requires IsUnit(u)
    ensures IsUtf8(u)
  {
    UnitWidth(u);
    assert u[0..|u|] == u;
    assert u[|u|..] == "";
  }

  lemma {:induction false} MeaningIsUtf8(chars: Chars)
    requires AreItems(chars)
    ensures IsUtf8(Meaning(chars))
  {
    hide IsUtf8, ItemMeaning, IsItem;
    if chars.Close? {
      AsciiIsUtf8("");
    } else {
      UnitIsUtf8(ItemMeaning(chars.item));
      MeaningIsUtf8(chars.rest);
      Utf8Joins(ItemMeaning(chars.item), Meaning(chars.rest));
    }
  }

  lemma {:induction false} DropIsPlain(s: string)
    requires IsUtf8(s)
    ensures IsUtf8(S.DropBlanks(s)) && (S.HasNul(S.DropBlanks(s)) ==> S.HasNul(s))
    ensures |S.DropBlanks(s)| > 0 ==> !Timestamp.IsSpace(S.DropBlanks(s)[0])
  {
    hide IsUtf8;
    if |s| > 0 && Timestamp.IsSpace(s[0]) {
      Utf8Tail(s);
      DropIsPlain(s[1..]);
    }
  }

  lemma {:induction false} ChopIsPlain(s: string)
    requires IsUtf8(s)
    ensures IsUtf8(S.ChopBlanks(s)) && (S.HasNul(S.ChopBlanks(s)) ==> S.HasNul(s)) && S.ChopBlanks(s) <= s
    ensures S.ChopBlanks(S.ChopBlanks(s)) == S.ChopBlanks(s)
  {
    hide IsUtf8;
    if |s| > 0 && Timestamp.IsSpace(s[|s| - 1]) {
      Utf8Cuts(s, |s| - 1);
      ChopIsPlain(s[..|s| - 1]);
    }
  }

  lemma TrimIsPlain(s: string)
    requires IsUtf8(s)
    ensures IsUtf8(S.Trim(s)) && (S.HasNul(S.Trim(s)) ==> S.HasNul(s)) && S.Trim(S.Trim(s)) == S.Trim(s)
  {
    hide IsUtf8, S.HasNul;
    DropIsPlain(s);
    ChopIsPlain(S.DropBlanks(s));
    var t := S.Trim(s);
    assert |t| > 0 ==> t[0] == S.DropBlanks(s)[0];
    assert S.DropBlanks(t) == t;
  }

  lemma GuessedIsLiteral(kind: S.Kind, item: string)
    requires IsUtf8(item)
    ensures IsLiteral(kind, S.Literal(S.KindFor(kind, S.GuessKind(item)), item))
  {
    hide IsUtf8;
    JsonNumber.LayoutIsUnique(item);
  }

  lemma {:induction false} SplitIsLiterals(kind: S.Kind, text: string)
    requires IsUtf8(text)
    ensures AreLiterals(kind, S.Split(kind, text).items)
    decreases |text|
  {
    hide IsUtf8, S.Trim, S.GuessKind, AreLiterals, S.KindFor, MutationPath.Find;
    var bar := MutationPath.Find(text, 0, '|');
    var item := S.Trim(text[..bar]);
    var literal := S.Literal(S.KindFor(kind, S.GuessKind(item)), item);
    Utf8Cuts(text, bar);
    TrimIsPlain(text[..bar]);
    GuessedIsLiteral(kind, item);
    SomeLiterals(kind, literal);
    if bar < |text| {
      AfterBar(text, bar);
      SplitIsLiterals(kind, text[bar + 1..]);
      LiteralsJoin(kind, if item == "" then [] else [literal], S.Split(kind, text[bar + 1..]).items);
    }
  }

  lemma AfterBar(text: string, bar: nat)
    requires bar < |text| && text[bar] == '|' && IsUtf8(text[bar..])
    ensures IsUtf8(text[bar + 1..])
  {
    Utf8Tail(text[bar..]);
    assert text[bar..][1..] == text[bar + 1..];
  }

  lemma SomeLiterals(kind: S.Kind, literal: S.Literal)
    requires IsLiteral(kind, literal)
    ensures AreLiterals(kind, []) && AreLiterals(kind, [literal])
  {
    hide IsLiteral;
  }

  lemma LiteralsJoin(kind: S.Kind, a: seq<S.Literal>, b: seq<S.Literal>)
    requires AreLiterals(kind, a) && AreLiterals(kind, b)
    ensures AreLiterals(kind, a + b)
  {
    hide IsLiteral;
  }

  // ---------------------------------------------------------------- what every frame keeps

  predicate Fits(kind: S.Kind, slot: S.Slot) {
    match slot
    case Field => true
    case Value => kind.TermKind? || kind.DateKind?
    case Any => S.Anys(kind)
    case IgnoreCase => kind.TermKind? && S.Textual(kind.op)
    case After => kind.DateKind?
    case Before => kind.DateKind?
    case Since => kind.DateKind?
    case _ => kind.RangeKind? || kind.DateKind?
  }

  ghost predicate PartialOk(p: S.Partial) {
    && (p.kind.TermKind? || p.kind.RangeKind? || p.kind.DateKind? || p.kind.InKind?) && p.kind != S.TermKind(S.Ne)
    && (p.field.Some? ==> IsField(p.field.value) && IsNormal(p.field.value) && S.Field in p.seen)
    && (p.value.Some? ==> p.kind.TermKind? && IsLiteral(p.kind, p.value.value))
    && AreLiterals(p.kind, p.any) && (p.any != [] ==> S.Anys(p.kind))
    && (p.ignoreCase ==> p.kind.TermKind? && S.Textual(p.kind.op))
    && AreBounds(p.bounds) && AreDates(p.texts) && p.texts.Keys <= p.seen
  }

  /** Read from a JSON text: no not-equal, no predicate that holds of everything, every field normalized. */
  predicate FromText(s: S.Selector) {
    match s
    case All => true
    case And(children) => AllFromText(children)
    case Or(children) => AllFromText(children)
    case Not(child) => FromText(child)
    case Term(op, field, value, any, _) => op != S.Ne && IsNormal(field) && !S.MatchesAll(op, field, value, any)
    case _ => IsNormal(s.field)
  }

  predicate AllFromText(children: seq<S.Selector>) {
    |children| == 0 || (FromText(children[0]) && AllFromText(children[1..]))
  }

  ghost predicate Fine(s: S.Selector) { Producible(s) && FromText(s) }

  ghost predicate AllFine(children: seq<S.Selector>) { AllProducible(children) && AllFromText(children) }

  ghost predicate FrameOk(f: S.Frame) {
    match f
    case Bottom(result) => result.Some? ==> Fine(result.value)
    case Node(kind, _, body) => Fine(body) && kind != Some(S.TermKind(S.Ne))
    case Children(children) => AllFine(children)
    case Predicate(p, slot) => PartialOk(p) && (slot.Some? ==> Fits(p.kind, slot.value) && slot.value in p.seen)
    case AnyArray(kind, items) => S.Anys(kind) && AreLiterals(kind, items)
  }

  /** A value taken leaves a frame of the same sort. */
  predicate SameSort(f: S.Frame, g: S.Frame) {
    && (f.Bottom? <==> g.Bottom?) && (f.Node? ==> g.Node? && f.kind == g.kind) && (f.Children? <==> g.Children?)
    && (f.Predicate? ==> g.Predicate? && f.partial.kind == g.partial.kind) && (f.AnyArray? ==> g.AnyArray? && f.whose == g.whose)
  }

  // ---------------------------------------------------------------- storing

  lemma BoundIsStored(p: S.Partial, slot: S.Slot, text: string)
    requires PartialOk(p) && p.kind.RangeKind? && S.Comparing(slot) && PlainText(text) && S.StoreBound(p, slot, text).Some?
    ensures PartialOk(S.StoreBound(p, slot, text).value) && S.StoreBound(p, slot, text).value.kind == p.kind
  {
    hide IsUtf8, S.HasNul, IsLiteral, IsField, AreDates, S.Trim, S.IsTime, IsNormal;
    TrimIsPlain(text);
    JsonNumber.LayoutIsUnique(S.Trim(text));
  }

  lemma DateIsKept(p: S.Partial, slot: S.Slot, text: string)
    requires PartialOk(p) && p.kind.DateKind? && slot in DATE_SLOTS && slot in p.seen && IsUtf8(text) && S.StoreDate(p, slot, text).Some?
    ensures PartialOk(S.StoreDate(p, slot, text).value) && S.StoreDate(p, slot, text).value.kind == p.kind
  {
    hide IsUtf8, S.HasNul, IsLiteral, IsField, AreBounds, S.IsDateBound, IsNormal;
  }

  lemma TextIsStored(p: S.Partial, slot: S.Slot, text: string)
    requires PartialOk(p) && Fits(p.kind, slot) && slot in p.seen && IsUtf8(text) && S.StoreText(p, slot, text).Some?
    ensures var q := S.StoreText(p, slot, text).value;
            PartialOk(q) && q.kind == p.kind
  {
    hide IsUtf8, S.HasNul, IsLiteral, IsField, AreBounds, AreDates, S.StoreBound, S.StoreDate, S.Normalize, S.Split, IsNormal;
    match slot
    case Field => NormalizeIsField(text);
    case Any => SplitIsLiterals(p.kind, text);
    case Value =>
      if p.kind.DateKind? {
        DateIsKept(p, slot, text);
      } else {
        TextIsLiteral(p.kind, text);
      }
    case IgnoreCase =>
    case _ =>
      if p.kind.DateKind? {
        DateIsKept(p, slot, text);
      } else {
        BoundIsStored(p, slot, text);
      }
  }

  lemma TextIsLiteral(kind: S.Kind, text: string)
    requires IsUtf8(text)
    ensures IsLiteral(kind, S.Literal(S.Quoted, text))
  {
  }

  lemma ScalarIsStored(p: S.Partial, slot: S.Slot, literal: S.Literal)
    requires PartialOk(p) && Fits(p.kind, slot) && IsScalar(literal) && S.StoreScalar(p, slot, literal).Some?
    ensures var q := S.StoreScalar(p, slot, literal).value;
            PartialOk(q) && q.kind == p.kind
  {
    hide IsField, AreBounds, AreDates, S.StoreBound, IsUtf8, IsNormal, IsLiteral, IsScalar;
    CoercedIsLiteral(p.kind, literal);
    if S.Comparing(slot) {
      NumberIsPlain(literal);
      BoundIsStored(p, slot, literal.text);
    }
  }

  ghost predicate IsScalar(literal: S.Literal) {
    match literal.kind
    case Quoted => false
    case Numeral => JsonNumber.IsJsonNumber(literal.text)
    case Boolean => literal.text == "true" || literal.text == "false"
    case Nothing => literal.text == "null"
  }

  lemma NumberIsPlain(literal: S.Literal)
    requires IsScalar(literal)
    ensures PlainText(literal.text)
  {
    if literal.kind == S.Numeral {
      var l :| JsonNumber.Matches(literal.text, l);
      NumberIsAscii(literal.text, l);
    }
    AsciiIsUtf8(literal.text);
  }

  lemma NumberIsAscii(text: string, l: JsonNumber.Layout)
    requires JsonNumber.Matches(text, l)
    ensures forall i :: 0 <= i < |text| ==> 0 < text[i] as int < 0x80
  {
  }

  lemma CoercedIsLiteral(kind: S.Kind, literal: S.Literal)
    requires IsScalar(literal)
    ensures IsLiteral(kind, S.Literal(S.KindFor(kind, literal.kind), literal.text))
  {
    hide IsUtf8, S.HasNul;
    NumberIsPlain(literal);
  }

  lemma FinishedIsFine(p: S.Partial)
    requires PartialOk(p) && S.Finish(p).Some?
    ensures Fine(S.Finish(p).value)
  {
    hide IsField, IsLiteral, AreBounds, AreDates, S.MatchesAll, S.Mixed, IsUtf8, IsNormal;
  }

  // ---------------------------------------------------------------- frames

  lemma KeyFits(kind: S.Kind, key: string)
    ensures S.SlotOf(kind, key).Some? ==> Fits(kind, S.SlotOf(kind, key).value)
  {
  }

  lemma KeyKeepsFrame(f: S.Frame, key: string)
    requires FrameOk(f) && S.OnKey(f, key).Some?
    ensures FrameOk(S.OnKey(f, key).value)
    ensures f.Predicate? ==> S.OnKey(f, key).value.Predicate? && S.OnKey(f, key).value.partial.kind == f.partial.kind
    ensures (f.Node? ==> S.OnKey(f, key).value.Node?) && (f.Node? || f.Predicate?)
  {
    hide IsField, AreLiterals, AreBounds, AreDates, S.SlotOf, Fits, IsNormal, IsLiteral;
    if f.Predicate? {
      KeyFits(f.partial.kind, key);
    }
  }

  lemma TextKeepsFrame(f: S.Frame, text: string)
    requires FrameOk(f) && IsUtf8(text) && S.OnText(f, text).Some?
    ensures FrameOk(S.OnText(f, text).value) && SameSort(f, S.OnText(f, text).value)
  {
    hide PartialOk, S.StoreText, AreLiterals, IsNormal, IsUtf8, S.HasNul, Fits, S.Normalize;
    match f
    case Node(_, _, _) => NormalizeIsField(text);
    case Predicate(p, slot) => TextIsStored(p, slot.value, text);
    case AnyArray(kind, items) =>
      TextIsLiteral(kind, text);
      SomeLiterals(kind, S.Literal(S.Quoted, text));
      LiteralsJoin(kind, items, [S.Literal(S.Quoted, text)]);
  }

  lemma ScalarKeepsFrame(f: S.Frame, literal: S.Literal)
    requires FrameOk(f) && IsScalar(literal) && S.OnScalar(f, literal).Some?
    ensures FrameOk(S.OnScalar(f, literal).value) && SameSort(f, S.OnScalar(f, literal).value)
  {
    hide PartialOk, S.StoreScalar, AreLiterals, IsScalar, Fits, S.KindFor;
    match f
    case Predicate(p, slot) => ScalarIsStored(p, slot.value, literal);
    case AnyArray(kind, items) =>
      var coerced := S.Literal(S.KindFor(kind, literal.kind), literal.text);
      CoercedIsLiteral(kind, literal);
      SomeLiterals(kind, coerced);
      LiteralsJoin(kind, items, [coerced]);
  }

  lemma OpeningIsOk(f: S.Frame, braces: bool)
    requires FrameOk(f) && S.OpenFrame(f, braces).Some?
    ensures FrameOk(S.OpenFrame(f, braces).value)
  {
    hide IsField, IsNormal;
  }

  lemma {:induction false} AllFineJoins(children: seq<S.Selector>, s: S.Selector)
    requires AllFine(children) && Fine(s)
    ensures AllFine(children + [s])
    decreases |children|
  {
    hide Producible, FromText;
    if |children| == 0 {
      assert children + [s] == [s];
      assert [s][1..] == [];
    } else {
      assert (children + [s])[1..] == children[1..] + [s];
      AllFineJoins(children[1..], s);
    }
  }

  lemma PuttingIsOk(below: S.Frame, s: S.Selector)
    requires FrameOk(below) && Fine(s) && S.OpenObject(below).Some?
    ensures FrameOk(S.Put(below, s)) && SameSort(below, S.Put(below, s))
  {
    hide Fine, AllFine, PartialOk;
    NotIsFine(s);
    if below.Children? {
      AllFineJoins(below.children, s);
    }
  }

  lemma NotIsFine(s: S.Selector)
    requires Fine(s)
    ensures Fine(S.Not(s))
  {
    hide IsField, IsLiteral, AreBounds, AreDates, AllProducible, AllFromText, S.MatchesAll, S.Mixed, S.DatesClash, IsNormal;
  }

  lemma ClosingObjectIsOk(below: S.Frame, f: S.Frame)
    requires FrameOk(below) && FrameOk(f) && S.OpenObject(below).Some? && S.CloseObject(below, f).Some?
    ensures FrameOk(S.CloseObject(below, f).value) && SameSort(below, S.CloseObject(below, f).value)
  {
    hide PartialOk, Fine, S.OpenObject, S.Put, S.Finish, Fits;
    if f.Node? {
      PuttingIsOk(below, f.body);
    } else {
      FinishedIsFine(f.partial);
      PuttingIsOk(below, S.Finish(f.partial).value);
    }
  }

  lemma ClosingArrayIsOk(below: S.Frame, f: S.Frame)
    requires FrameOk(below) && FrameOk(f) && S.OpenArray(below).Some? && SameSort(S.OpenArray(below).value, f)
    requires S.CloseArray(below, f).Some?
    ensures FrameOk(S.CloseArray(below, f).value) && SameSort(below, S.CloseArray(below, f).value)
  {
    hide IsField, IsLiteral, AreBounds, AreDates, IsNormal, AreLiterals;
    if f.AnyArray? {
      LiteralsJoin(f.whose, below.partial.any, f.items);
    }
  }

  lemma {:induction false} TakingIsOk(f: S.Frame, v: Value)
    requires FrameOk(f) && WellFormed(v) && S.Take(f, v).Some?
    ensures FrameOk(S.Take(f, v).value) && SameSort(f, S.Take(f, v).value)
    decreases v
  {
    hide FrameOk, S.OnText, S.OnScalar, S.OpenObject, S.OpenArray, S.CloseObject, S.CloseArray, SameSort, Meaning, IsUtf8, S.TakeMembers;
    match v
    case Text(chars) =>
      MeaningIsUtf8(chars);
      TextKeepsFrame(f, Meaning(chars));
    case Number(text) => ScalarKeepsFrame(f, S.Literal(S.Numeral, text));
    case Bool(b) => ScalarKeepsFrame(f, S.Literal(S.Boolean, if b then "true" else "false"));
    case Null => ScalarKeepsFrame(f, S.Literal(S.Nothing, "null"));
    case Empty(braces, _) =>
      OpeningIsOk(f, braces);
      SameAsItself(S.OpenFrame(f, braces).value);
      ClosingIsOk(f, S.OpenFrame(f, braces).value, braces);
    case Nest(braces, members) =>
      OpeningIsOk(f, braces);
      var inner := S.OpenFrame(f, braces).value;
      MembersKeepFrame(inner, members, braces);
      ClosingIsOk(f, S.TakeMembers(inner, members, braces).value, braces);
  }

  lemma SameAsItself(f: S.Frame)
    ensures SameSort(f, f)
  {
  }

  lemma ClosingIsOk(below: S.Frame, f: S.Frame, braces: bool)
    requires FrameOk(below) && FrameOk(f) && S.OpenFrame(below, braces).Some?
    requires !braces ==> SameSort(S.OpenFrame(below, braces).value, f)
    requires S.CloseFrame(below, f, braces).Some?
    ensures FrameOk(S.CloseFrame(below, f, braces).value) && SameSort(below, S.CloseFrame(below, f, braces).value)
  {
    hide FrameOk, SameSort, S.OpenObject, S.OpenArray, S.CloseObject, S.CloseArray;
    if braces {
      ClosingObjectIsOk(below, f);
    } else {
      ClosingArrayIsOk(below, f);
    }
  }

  lemma {:induction false} MembersKeepFrame(f: S.Frame, ms: Members, braces: bool)
    requires FrameOk(f) && WellFormedMembers(ms, braces) && S.TakeMembers(f, ms, braces).Some?
    ensures FrameOk(S.TakeMembers(f, ms, braces).value)
    ensures !braces ==> SameSort(f, S.TakeMembers(f, ms, braces).value)
    decreases ms
  {
    hide FrameOk, SameSort, S.TakeMember, WellFormedMember;
    MemberKeepsFrame(f, ms.member, braces);
    if ms.More? {
      var next := S.TakeMember(f, ms.member, braces).value;
      MembersKeepFrame(next, ms.rest, braces);
      if !braces {
        SameSortChains(f, next, S.TakeMembers(next, ms.rest, braces).value);
      }
    }
  }

  lemma SameSortChains(f: S.Frame, g: S.Frame, h: S.Frame)
    requires SameSort(f, g) && SameSort(g, h)
    ensures SameSort(f, h)
  {
  }

  lemma {:induction false} MemberKeepsFrame(f: S.Frame, m: Member, braces: bool)
    requires FrameOk(f) && WellFormedMember(m, braces) && S.TakeMember(f, m, braces).Some?
    ensures FrameOk(S.TakeMember(f, m, braces).value)
    ensures !braces ==> SameSort(f, S.TakeMember(f, m, braces).value)
    decreases m
  {
    hide FrameOk, SameSort, S.Take, S.OnKey, WellFormed, Meaning;
    if m.key.NoKey? {
      TakingIsOk(f, m.value);
    } else {
      KeyKeepsFrame(f, Meaning(m.key.chars));
      TakingIsOk(S.OnKey(f, Meaning(m.key.chars)).value, m.value);
    }
  }

  // ---------------------------------------------------------------- selectors

  /** Every field is the root or does not end in a slash. */
  predicate Kept(s: S.Selector) {
    match s
    case All => true
    case And(children) => AllKept(children)
    case Or(children) => AllKept(children)
    case Not(child) => Kept(child)
    case _ => KeptField(s.field)
  }

  predicate AllKept(children: seq<S.Selector>) { |children| == 0 || (Kept(children[0]) && AllKept(children[1..])) }

  predicate KeptField(field: string) { field == "/" || (|field| > 0 && field[|field| - 1] != '/') }

  lemma {:induction false} KeptIsSame(s: S.Selector)
    requires Fine(s)
    ensures Again(s) == s <==> Kept(s)
    decreases s
  {
    hide IsField, IsLiteral, AreBounds, AreDates, AreLiterals, S.Mixed, S.DatesClash, S.MatchesAll, Flat, S.Normalize;
    match s
    case All =>
    case And(children) => AllKeptAreSame(children);
    case Or(children) => AllKeptAreSame(children);
    case Not(child) => KeptIsSame(child);
    case _ => NormalizeTwice(s.field);
  }

  lemma {:induction false} AllKeptAreSame(children: seq<S.Selector>)
    requires AllFine(children)
    ensures AllAgain(children) == children <==> AllKept(children)
    decreases children
  {
    hide Producible, FromText, Kept, Again;
    if |children| > 0 {
      KeptIsSame(children[0]);
      AllKeptAreSame(children[1..]);
      assert children == [children[0]] + children[1..];
      assert AllAgain(children)[0] == Again(children[0]) && AllAgain(children)[1..] == AllAgain(children[1..]);
    }
  }

  /** What a JSON text stands for, written and read again, is itself exactly when no field ends in a slash it could lose. */
  lemma ReadWritesBack(text: string)
    requires S.Read(text).Some?
    ensures Producible(S.Read(text).value)
    ensures S.Read(Print(Tree(S.Read(text).value))).Some?
    ensures S.Read(Print(Tree(S.Read(text).value))) == S.Read(text) <==> Kept(S.Read(text).value)
  {
    hide S.Take, JsonParse.ParseValue, Tree, Producible, FromText, Kept, Again;
    var start := JsonParse.SpaceEnd(text, 0);
    var v := JsonParse.ParseValue(text, start, -|text|).value.value;
    JsonRoundTrip.ParsedIsThere(text, start, -|text|);
    TakingIsOk(S.Bottom(None), v);
    var s := S.Read(text).value;
    WrittenReadsBack(s);
    KeptIsSame(s);
  }
}
