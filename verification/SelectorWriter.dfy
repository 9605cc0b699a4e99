/** The writer of selector JSON (src/lql.c), one byte string at a time. */
module SelectorWriter {
  import opened Wrappers
  import opened JsonSyntax
  import opened SelectorText
  import opened SelectorRoundTrip
  import S = Selectors
  import Utf8

  // ---------------------------------------------------------------- pieces of an object or array

  function QuotedText(s: string): string { "\"" + AllEscaped(s) + "\"" }

  /** Well-formed or not, a string is spelt byte by byte. */
  lemma {:induction false} QuoteIsSpelt(s: string)
    ensures CharsText(Quote(s)) == AllEscaped(s) + "\""
    decreases |s|
  {
    hide QuotedItem, ItemText, Escaped;
    if |s| > 0 {
      var u := if UnitIsThere(s) then Utf8.UnitAt(s, 0).value else s[..1];
      ItemIsSpelt(s, u);
      QuoteIsSpelt(s[|u|..]);
      assert u + s[|u|..] == s;
      AllEscapedJoins(u, s[|u|..]);
    }
  }

  predicate UnitIsThere(s: string) { Utf8.UnitAt(s, 0).Some? }

  lemma ItemIsSpelt(s: string, u: string)
    requires |s| > 0 && u == if UnitIsThere(s) then Utf8.UnitAt(s, 0).value else s[..1]
    ensures |u| > 0 && ItemText(QuotedItem(u)) == AllEscaped(u)
  {
    hide AllEscaped, Utf8.UnitAt;
    if UnitIsThere(s) {
      QuotedItemIs(u);
    } else {
      NoUnitIsHigh(s);
      HighIsRaw(u);
    }
  }

  lemma NoUnitIsHigh(s: string)
    requires |s| > 0 && !UnitIsThere(s)
    ensures s[0] as int >= 0x80
  {
    assert s[0..1] == [s[0]];
  }

  function EntryText(e: Entry): string { QuotedText(e.key) + ":" + Print(e.value) }

  function EntriesText(es: seq<Entry>): string {
    if |es| == 0 then "" else EntriesText(es[..|es| - 1]) + (if |es| == 1 then "" else ",") + EntryText(es[|es| - 1])
  }

  function ValuesText(vs: seq<Value>): string {
    if |vs| == 0 then "" else ValuesText(vs[..|vs| - 1]) + (if |vs| == 1 then "" else ",") + Print(vs[|vs| - 1])
  }

  lemma EntriesGrow(es: seq<Entry>, e: Entry)
    ensures EntriesText(es + [e]) == EntriesText(es) + (if |es| == 0 then "" else ",") + EntryText(e)
  {
    assert (es + [e])[..|es|] == es;
  }

  lemma ValuesGrow(vs: seq<Value>, v: Value)
    ensures ValuesText(vs + [v]) == ValuesText(vs) + (if |vs| == 0 then "" else ",") + Print(v)
  {
    assert (vs + [v])[..|vs|] == vs;
  }

  /** From the front. */
  lemma {:induction false} EntriesFrom(es: seq<Entry>)
    requires |es| > 1
    ensures EntriesText(es) == EntryText(es[0]) + "," + EntriesText(es[1..])
    decreases |es|
  {
    hide EntryText;
    var last := es[|es| - 1];
    var front := es[..|es| - 1];
    assert es == front + [last];
    if |es| == 2 {
      assert EntriesText(front) == EntriesText([]) + "" + EntryText(es[0]);
      assert es[1..] == [] + [last];
      EntriesGrow([], last);
    } else {
      EntriesFrom(front);
      assert es[1..] == front[1..] + [last];
      EntriesGrow(front[1..], last);
      Shuffle(EntryText(es[0]), EntriesText(front[1..]), EntryText(last));
    }
  }

  lemma Shuffle(a: string, b: string, c: string)
    ensures a + "," + b + "," + c == a + "," + (b + "," + c)
  {
  }

  lemma {:induction false} ValuesFrom(vs: seq<Value>)
    requires |vs| > 1
    ensures ValuesText(vs) == Print(vs[0]) + "," + ValuesText(vs[1..])
    decreases |vs|
  {
    hide Print;
    var last := vs[|vs| - 1];
    var front := vs[..|vs| - 1];
    assert vs == front + [last];
    if |vs| == 2 {
      assert ValuesText(front) == ValuesText([]) + "" + Print(vs[0]);
      assert vs[1..] == [] + [last];
      ValuesGrow([], last);
    } else {
      ValuesFrom(front);
      assert vs[1..] == front[1..] + [last];
      ValuesGrow(front[1..], last);
      Shuffle(Print(vs[0]), ValuesText(front[1..]), Print(last));
    }
  }

  lemma {:induction false} FieldsPrint(es: seq<Entry>)
    requires |es| > 0
    ensures PrintMembers(Fields(es), true) == EntriesText(es) + "}"
    decreases |es|
  {
    hide Print, PrintMember, EntryText;
    FieldPrints(es[0]);
    if |es| == 1 {
      assert es[..0] == [];
    } else {
      FieldsPrint(es[1..]);
      EntriesFrom(es);
    }
  }

  lemma FieldPrints(e: Entry)
    ensures PrintMember(Member("", Named(Quote(e.key), "", ""), e.value, "")) == EntryText(e)
  {
    hide Print, Quote, AllEscaped;
    QuoteIsSpelt(e.key);
  }

  lemma {:induction false} ElementsPrint(vs: seq<Value>)
    requires |vs| > 0
    ensures PrintMembers(Elements(vs), false) == ValuesText(vs) + "]"
    decreases |vs|
  {
    hide Print;
    if |vs| == 1 {
      assert vs[..0] == [];
    } else {
      ElementsPrint(vs[1..]);
      ValuesFrom(vs);
    }
  }

  lemma ObjectPrints(es: seq<Entry>)
    ensures Print(Object(es)) == "{" + EntriesText(es) + "}"
  {
    hide EntriesText;
    if |es| > 0 {
      FieldsPrint(es);
    } else {
      assert EntriesText([]) == "" by { Nothing(); }
    }
  }

  lemma ArrayPrints(vs: seq<Value>)
    ensures Print(Array(vs)) == "[" + ValuesText(vs) + "]"
  {
    hide ValuesText;
    if |vs| > 0 {
      ElementsPrint(vs);
    } else {
      assert ValuesText([]) == "" by { Nothing(); }
    }
  }

  lemma Nothing()
    ensures EntriesText([]) == "" && ValuesText([]) == ""
  {
  }

  /** The text of an object so far. */
  function Begun(before: string, es: seq<Entry>): string { before + "{" + EntriesText(es) }

  lemma BegunGrows(before: string, es: seq<Entry>, e: Entry)
    ensures Begun(before, es + [e]) == Begun(before, es) + (if es == [] then "" else ",") + QuotedText(e.key) + ":" + Print(e.value)
  {
    hide EntriesText, Print, QuotedText;
    EntriesGrow(es, e);
  }

  lemma TextPrints(s: string)
    ensures Print(Text(Quote(s))) == QuotedText(s)
  {
    hide Quote, AllEscaped;
    QuoteIsSpelt(s);
  }

  function LiteralText(literal: S.Literal): string { if literal.kind == S.Quoted then QuotedText(literal.text) else literal.text }

  lemma LiteralPrints(kind: S.Kind, literal: S.Literal)
    requires IsLiteral(kind, literal)
    ensures Print(LiteralTree(literal)) == LiteralText(literal)
  {
    hide Quote, AllEscaped, IsUtf8;
    QuoteIsSpelt(literal.text);
  }

  lemma BoundPrints(bound: S.Bound)
    ensures Print(BoundTree(bound)) == if bound.NumberBound? then bound.text else QuotedText(bound.text)
  {
    hide QuotedText;
    TextPrints(bound.text);
  }

  lemma {:induction false} LiteralTreesGrow(literals: seq<S.Literal>, literal: S.Literal)
    ensures LiteralTrees(literals + [literal]) == LiteralTrees(literals) + [LiteralTree(literal)]
    decreases |literals|
  {
    hide LiteralTree;
    if |literals| == 0 {
      assert [] + [literal] == [literal];
      assert LiteralTrees([literal]) == [LiteralTree(literal)] + LiteralTrees([]);
    } else {
      assert (literals + [literal])[1..] == literals[1..] + [literal];
      LiteralTreesGrow(literals[1..], literal);
    }
  }

  lemma {:induction false} TreesGrow(children: seq<S.Selector>, child: S.Selector)
    ensures Trees(children + [child]) == Trees(children) + [Tree(child)]
    decreases |children|
  {
    hide Tree;
    if |children| == 0 {
      assert [] + [child] == [child];
      assert Trees([child]) == [Tree(child)] + Trees([]);
    } else {
      assert (children + [child])[1..] == children[1..] + [child];
      TreesGrow(children[1..], child);
    }
  }

  lemma {:induction false} ProducibleAt(children: seq<S.Selector>, i: nat)
    requires AllProducible(children) && i < |children|
    ensures Producible(children[i])
    decreases |children|
  {
    hide Producible;
    if i > 0 {
      ProducibleAt(children[1..], i - 1);
    }
  }

  function MaybeText(key: string, value: Option<string>): seq<Entry> {
    if value.None? then [] else [Entry(key, Text(Quote(value.value)))]
  }

  function MaybeBound(key: string, bound: Option<S.Bound>): seq<Entry> {
    if bound.None? then [] else [Entry(key, BoundTree(bound.value))]
  }

  function At<T>(m: map<S.Slot, T>, slot: S.Slot): Option<T> { if slot in m then Some(m[slot]) else None }

  lemma RangeMembers(bounds: map<S.Slot, S.Bound>, es: seq<Entry>)
    ensures es + MaybeBound("gt", At(bounds, S.Gt)) + MaybeBound("gte", At(bounds, S.Gte)) + MaybeBound("lt", At(bounds, S.Lt))
            + MaybeBound("lte", At(bounds, S.Lte)) == es + BoundEntries(bounds, RANGE_SLOTS)
  {
    hide BoundTree, BoundEntries;
    BoundsAfter(bounds, es, S.Gt, [S.Gte, S.Lt, S.Lte]);
    BoundsAfter(bounds, es + MaybeBound("gt", At(bounds, S.Gt)), S.Gte, [S.Lt, S.Lte]);
    BoundsAfter(bounds, es + MaybeBound("gt", At(bounds, S.Gt)) + MaybeBound("gte", At(bounds, S.Gte)), S.Lt, [S.Lte]);
    BoundsAfter(bounds, es + MaybeBound("gt", At(bounds, S.Gt)) + MaybeBound("gte", At(bounds, S.Gte)) + MaybeBound("lt", At(bounds, S.Lt)),
                S.Lte, []);
    NoMembers(bounds, map[]);
    assert [S.Gt] + [S.Gte, S.Lt, S.Lte] == RANGE_SLOTS && [S.Gte] + [S.Lt, S.Lte] == [S.Gte, S.Lt, S.Lte];
    assert [S.Lt] + [S.Lte] == [S.Lt, S.Lte] && [S.Lte] + [] == [S.Lte];
  }

  lemma BoundsAfter(bounds: map<S.Slot, S.Bound>, es: seq<Entry>, slot: S.Slot, rest: seq<S.Slot>)
    ensures es + BoundEntries(bounds, [slot] + rest) == es + MaybeBound(SlotName(slot), At(bounds, slot)) + BoundEntries(bounds, rest)
  {
    hide BoundTree, SlotName;
    assert ([slot] + rest)[1..] == rest;
  }

  lemma NoMembers(bounds: map<S.Slot, S.Bound>, texts: map<S.Slot, string>)
    ensures BoundEntries(bounds, []) == [] && TextEntries(texts, []) == []
  {
  }

  lemma TextsAfter(texts: map<S.Slot, string>, es: seq<Entry>, slot: S.Slot, rest: seq<S.Slot>)
    ensures es + TextEntries(texts, [slot] + rest) == es + MaybeText(SlotName(slot), At(texts, slot)) + TextEntries(texts, rest)
  {
    hide Quote, SlotName;
    assert ([slot] + rest)[1..] == rest;
  }

  // ---------------------------------------------------------------- the writer

  class Writer {
    var out: string

    constructor ()
      ensures out == ""
    {
      out := "";
    }

    /** src/lql.c:812-833. */
    method Put(text: string)
      modifies this
      ensures out == old(out) + text
    {
      out := out + text;
    }

    /** src/lql.c:835-890. */
    method String(data: string)
      modifies this
      ensures out == old(out) + QuotedText(data)
    {
      hide Escaped;
      Put("\"");
      var i := 0;
      ghost var start := out;
      assert data[..0] == "" && AllEscaped("") == "";
      while i < |data|
        invariant i <= |data| && out == start + AllEscaped(data[..i])
      {
        Put(Escaped(data[i]));
        assert data[..i + 1] == data[..i] + [data[i]];
        AllEscapedJoins(data[..i], [data[i]]);
        assert AllEscaped([data[i]]) == Escaped(data[i]) + AllEscaped("");
        i := i + 1;
      }
      assert data[..|data|] == data;
      Put("\"");
    }

    /** src/lql.c:892-900. */
    method Key(key: string)
      modifies this
      ensures out == old(out) + QuotedText(key) + ":"
    {
      String(key);
      Put(":");
    }

    /** src/lql.c:902-911. */
    method Comma(first: bool) returns (rest: bool)
      modifies this
      ensures !rest && out == old(out) + (if first then "" else ",")
    {
      if !first {
        Put(",");
      }
      rest := false;
    }

    /** src/lql.c:942-959. */
    method WriteLiteral(literal: S.Literal)
      modifies this
      ensures out == old(out) + LiteralText(literal)
    {
      if literal.kind == S.Quoted {
        String(literal.text);
      } else {
        Put(literal.text);
      }
    }

    /** src/lql.c:1111-1124, for a value that may be missing. */
    method StringMember(key: string, value: Option<string>, first: bool, ghost before: string, ghost es: seq<Entry>) returns (rest: bool)
      requires out == Begun(before, es) && (first <==> es == [])
      modifies this
      ensures out == Begun(before, es + MaybeText(key, value)) && (rest <==> es + MaybeText(key, value) == [])
    {
      hide Begun, QuotedText, Print;
      rest := first;
      if value.Some? {
        rest := Comma(rest);
        Key(key);
        String(value.value);
        BegunGrows(before, es, Entry(key, Text(Quote(value.value))));
        TextPrints(value.value);
      } else {
        assert es + [] == es;
      }
    }

    /** src/lql.c:1025-1053. */
    method BoundMember(key: string, bound: Option<S.Bound>, first: bool, ghost before: string, ghost es: seq<Entry>) returns (rest: bool)
      requires out == Begun(before, es) && (first <==> es == [])
      modifies this
      ensures out == Begun(before, es + MaybeBound(key, bound)) && (rest <==> es + MaybeBound(key, bound) == [])
    {
      hide Begun, QuotedText, Print;
      rest := first;
      if bound.Some? {
        rest := Comma(rest);
        Key(key);
        if bound.value.NumberBound? {
          Put(bound.value.text);
        } else {
          String(bound.value.text);
        }
        BegunGrows(before, es, Entry(key, BoundTree(bound.value)));
        BoundPrints(bound.value);
      } else {
        assert es + [] == es;
      }
    }

    /** The loop over alternatives (src/lql.c:993-1011 and 1179-1195). */
    method Literals(kind: S.Kind, literals: seq<S.Literal>)
      requires AreLiterals(kind, literals)
      modifies this
      ensures out == old(out) + Print(Array(LiteralTrees(literals)))
    {
      hide Print, IsLiteral, LiteralTree, QuotedText, ValuesText, Array, LiteralText;
      Put("[");
      ghost var start := out;
      var i := 0;
      NoLiterals(literals);
      while i < |literals|
        invariant i <= |literals| && out == start + ValuesText(LiteralTrees(literals[..i]))
      {
        if i != 0 {
          Put(",");
        }
        WriteLiteral(literals[i]);
        assert literals[..i + 1] == literals[..i] + [literals[i]];
        LiteralTreesGrow(literals[..i], literals[i]);
        ValuesGrow(LiteralTrees(literals[..i]), LiteralTree(literals[i]));
        LiteralPrints(kind, literals[i]);
        i := i + 1;
      }
      assert literals[..|literals|] == literals;
      Put("]");
      ArrayPrints(LiteralTrees(literals));
    }

    /** The opening of a predicate object and its field. */
    method Field(field: string, ghost before: string) returns (first: bool)
      requires out == before
      modifies this
      ensures !first && out == Begun(before, [FieldEntry(field)])
    {
      hide EntriesText, Print;
      Put("{");
      assert EntriesText([]) == "" by { Nothing(); }
      first := StringMember("field", Some(field), true, before, []);
      assert [] + [FieldEntry(field)] == [FieldEntry(field)];
    }

    /** src/lql.c:961-1023. */
    method TermPredicate(op: S.Operator, field: string, value: Option<S.Literal>, any: seq<S.Literal>, ignoreCase: bool)
      requires (value.Some? ==> IsLiteral(S.TermKind(op), value.value)) && AreLiterals(S.TermKind(op), any)
      modifies this
      ensures out == old(out) + Print(TermTree(field, value, any, ignoreCase))
    {
      hide Print, IsLiteral, LiteralTree, QuotedText, Begun, LiteralText, LiteralTrees, Array, Object, FieldEntry;
      ghost var before := out;
      var first := Field(field, before);
      ghost var es := [FieldEntry(field)];
      if value.Some? {
        first := Comma(first);
        Key("value");
        WriteLiteral(value.value);
        BegunGrows(before, es, Entry("value", LiteralTree(value.value)));
        LiteralPrints(S.TermKind(op), value.value);
      }
      assert es + [] == es;
      es := es + ValueEntries(value);
      if |any| != 0 {
        first := Comma(first);
        Key("any");
        Literals(S.TermKind(op), any);
        BegunGrows(before, es, Entry("any", Array(LiteralTrees(any))));
      }
      assert es + [] == es;
      es := es + AnyEntries(any);
      if ignoreCase {
        first := Comma(first);
        Key("ignoreCase");
        Put("true");
        BegunGrows(before, es, Entry("ignoreCase", Bool(true)));
        assert Print(Bool(true)) == "true" by { TruePrints(); }
      }
      assert es + [] == es;
      Close(before, es + CaseEntries(ignoreCase));
    }

    method Close(ghost before: string, ghost es: seq<Entry>)
      requires out == Begun(before, es)
      modifies this
      ensures out == before + Print(Object(es))
    {
      hide Print, Object, EntriesText;
      Put("}");
      ObjectPrints(es);
    }

    /** src/lql.c:1055-1109. */
    method RangePredicate(field: string, bounds: map<S.Slot, S.Bound>)
      modifies this
      ensures out == old(out) + Print(Object([FieldEntry(field)] + BoundEntries(bounds, RANGE_SLOTS)))
    {
      hide Print, Begun, Object, BoundEntries, MaybeBound, At, FieldEntry;
      ghost var before := out;
      var first := Field(field, before);
      ghost var es := [FieldEntry(field)];
      RangeMembers(bounds, es);
      first := BoundMember("gt", At(bounds, S.Gt), first, before, es);
      es := es + MaybeBound("gt", At(bounds, S.Gt));
      first := BoundMember("gte", At(bounds, S.Gte), first, before, es);
      es := es + MaybeBound("gte", At(bounds, S.Gte));
      first := BoundMember("lt", At(bounds, S.Lt), first, before, es);
      es := es + MaybeBound("lt", At(bounds, S.Lt));
      first := BoundMember("lte", At(bounds, S.Lte), first, before, es);
      Close(before, es + MaybeBound("lte", At(bounds, S.Lte)));
    }

    /** One member of a date predicate. */
    method DateMember(slot: S.Slot, texts: map<S.Slot, string>, first: bool, ghost before: string, ghost es: seq<Entry>, ghost rest: seq<S.Slot>) returns (next: bool)
      requires out == Begun(before, es) && (first <==> es == [])
      modifies this
      ensures var more := es + MaybeText(SlotName(slot), At(texts, slot));
              out == Begun(before, more) && (next <==> more == []) && es + TextEntries(texts, [slot] + rest) == more + TextEntries(texts, rest)
    {
      hide Begun, TextEntries, SlotName;
      next := StringMember(SlotName(slot), At(texts, slot), first, before, es);
      TextsAfter(texts, es, slot, rest);
    }

    /** src/lql.c:1126-1166. */
    method DatePredicate(field: string, texts: map<S.Slot, string>)
      modifies this
      ensures out == old(out) + Print(Object([FieldEntry(field)] + TextEntries(texts, DATE_SLOTS)))
    {
      hide Print, Begun, Object, TextEntries, MaybeText, At, FieldEntry, SlotName;
      ghost var before := out;
      var first := Field(field, before);
      ghost var es := [FieldEntry(field)];
      first := DateMember(S.Value, texts, first, before, es, DATE_SLOTS[1..]);
      es := es + MaybeText(SlotName(S.Value), At(texts, S.Value));
      first := DateMember(S.Since, texts, first, before, es, DATE_SLOTS[2..]);
      es := es + MaybeText(SlotName(S.Since), At(texts, S.Since));
      first := DateMember(S.After, texts, first, before, es, DATE_SLOTS[3..]);
      es := es + MaybeText(SlotName(S.After), At(texts, S.After));
      first := DateMember(S.Before, texts, first, before, es, DATE_SLOTS[4..]);
      es := es + MaybeText(SlotName(S.Before), At(texts, S.Before));
      first := DateMember(S.Gte, texts, first, before, es, DATE_SLOTS[5..]);
      es := es + MaybeText(SlotName(S.Gte), At(texts, S.Gte));
      first := DateMember(S.Gt, texts, first, before, es, DATE_SLOTS[6..]);
      es := es + MaybeText(SlotName(S.Gt), At(texts, S.Gt));
      first := DateMember(S.Lte, texts, first, before, es, DATE_SLOTS[7..]);
      es := es + MaybeText(SlotName(S.Lte), At(texts, S.Lte));
      first := DateMember(S.Lt, texts, first, before, es, []);
      es := es + MaybeText(SlotName(S.Lt), At(texts, S.Lt));
      NoMembers(map[], texts);
      DateOrder();
      assert es + TextEntries(texts, []) == es;
      Close(before, es);
    }

    /** src/lql.c:1168-1195. */
    method InPredicate(field: string, any: seq<S.Literal>)
      requires AreLiterals(S.InKind, any)
      modifies this
      ensures out == old(out) + Print(Object([FieldEntry(field), Entry("any", Array(LiteralTrees(any)))]))
    {
      hide Print, Begun, Object, LiteralTrees, FieldEntry, Array, AreLiterals, QuotedText;
      ghost var before := out;
      var first := Field(field, before);
      first := Comma(first);
      Key("any");
      Literals(S.InKind, any);
      ghost var e := Entry("any", Array(LiteralTrees(any)));
      BegunGrows(before, [FieldEntry(field)], e);
      assert [FieldEntry(field)] + [e] == [FieldEntry(field), e];
      Close(before, [FieldEntry(field), e]);
    }

    /** The children of an and or an or (src/lql.c:1197-1217). */
    method List(children: seq<S.Selector>)
      requires AllProducible(children)
      modifies this
      ensures out == old(out) + Print(Array(Trees(children)))
      decreases children, 0
    {
      hide *;
      Put("[");
      ghost var start := out;
      var i := 0;
      NoTrees(children);
      while i < |children|
        invariant i <= |children| && out == start + ValuesText(Trees(children[..i]))
      {
        if i != 0 {
          Put(",");
        }
        ProducibleAt(children, i);
        Write(children[i]);
        assert children[..i + 1] == children[..i] + [children[i]];
        TreesGrow(children[..i], children[i]);
        ValuesGrow(Trees(children[..i]), Tree(children[i]));
        i := i + 1;
      }
      assert children[..|children|] == children;
      Put("]");
      ArrayPrints(Trees(children));
    }

    /** src/lql.c:1219-1352. */
    method Write(s: S.Selector)
      requires Producible(s)
      modifies this
      ensures out == old(out) + Print(Tree(s))
      decreases s
    {
      hide Print, Begun, Object, Array, Trees, TermTree, FieldEntry, BoundEntries, TextEntries, LiteralTrees, IsField, IsLiteral, AreLiterals,
        AllProducible, AreBounds, AreDates, QuotedText, EntriesText, S.MatchesAll, S.Mixed, S.DatesClash, OpName;
      ghost var before := out;
      Put("{");
      ghost var v := Null;
      ghost var key := "";
      match s {
        case All =>
          NothingWritten(before);
          Put("}");
          return;
        case And(children) =>
          key := "and";
          Key("and");
          List(children);
          v := Array(Trees(children));
        case Or(children) =>
          key := "or";
          Key("or");
          List(children);
          v := Array(Trees(children));
        case Not(child) =>
          key := "not";
          Key("not");
          Write(child);
          v := Tree(child);
        case Term(op, field, value, any, ignoreCase) =>
          key := OpName(op);
          Key(OpName(op));
          if op == S.Ne {
            WriteEqual(field, value, any, ignoreCase);
            v := Object([Entry("eq", TermTree(field, value, any, ignoreCase))]);
          } else {
            TermPredicate(op, field, value, any, ignoreCase);
            v := TermTree(field, value, any, ignoreCase);
          }
        case Range(field, bounds) =>
          key := "range";
          Key("range");
          RangePredicate(field, bounds);
          v := Object([FieldEntry(field)] + BoundEntries(bounds, RANGE_SLOTS));
        case Date(field, texts) =>
          key := "date";
          Key("date");
          DatePredicate(field, texts);
          v := Object([FieldEntry(field)] + TextEntries(texts, DATE_SLOTS));
        case In(field, any) =>
          key := "in";
          Key("in");
          InPredicate(field, any);
          v := Object([FieldEntry(field), Entry("any", Array(LiteralTrees(any)))]);
        case Exists(field) =>
          key := "exists";
          Key("exists");
          String(field);
          TextPrints(field);
          v := Text(Quote(field));
      }
      Put("}");
      OneMember(before, key, v);
    }

    /** Not-equal's operand: the same selector as an equality (src/lql.c:1295-1310). */
    method WriteEqual(field: string, value: Option<S.Literal>, any: seq<S.Literal>, ignoreCase: bool)
      requires Producible(S.Term(S.Ne, field, value, any, ignoreCase))
      modifies this
      ensures out == old(out) + Print(Object([Entry("eq", TermTree(field, value, any, ignoreCase))]))
    {
      hide Print, Object, TermTree, IsField, IsLiteral, QuotedText, S.MatchesAll;
      ghost var before := out;
      UnequalIsEqual(field, value, any, ignoreCase);
      Put("{");
      Key("eq");
      TermPredicate(S.Eq, field, value, any, ignoreCase);
      Put("}");
      OneMember(before, "eq", TermTree(field, value, any, ignoreCase));
    }
  }

  lemma NoTrees(children: seq<S.Selector>)
    ensures children[..0] == [] && ValuesText(Trees([])) == ""
  {
  }

  lemma NothingWritten(before: string)
    ensures Print(Object([])) == "{" + "}" && before + "{" + "}" == before + ("{" + "}")
  {
  }

  lemma OneMember(before: string, key: string, v: Value)
    ensures before + "{" + (QuotedText(key) + ":") + Print(v) + "}" == before + Print(Object([Entry(key, v)]))
  {
    hide Print, QuotedText, EntriesText;
    ObjectPrints([Entry(key, v)]);
    EntriesGrow([], Entry(key, v));
    Nothing();
    assert [] + [Entry(key, v)] == [Entry(key, v)];
  }

  lemma DateOrder()
    ensures forall i :: 0 <= i < 8 ==> DATE_SLOTS[i..] == [DATE_SLOTS[i]] + DATE_SLOTS[i + 1..]
    ensures DATE_SLOTS[8..] == [] && DATE_SLOTS[0..] == DATE_SLOTS && |DATE_SLOTS| == 8
  {
  }

  lemma NoLiterals(literals: seq<S.Literal>)
    ensures literals[..0] == [] && ValuesText(LiteralTrees([])) == ""
  {
  }

  lemma TruePrints()
    ensures Print(Bool(true)) == "true"
  {
  }
}
