/** The JSON text of a selector and the writer that produces it (src/lql.c). */
module SelectorText {
  import opened Wrappers
  import opened Utf8
  import opened JsonSyntax
  import S = Selectors

  // ---------------------------------------------------------------- strings

  predicate IsUtf8(s: string) {
    |s| == 0 || (UnitAt(s, 0).Some? && IsUtf8(s[|UnitAt(s, 0).value|..]))
  }

  function Nibble(n: int): char
    requires 0 <= n < 16
  {
    if n < 10 then ('0' as int + n) as char else ('a' as int + n - 10) as char
  }

  /** How the writer spells one byte of a string (src/lql.c:847-885). */
  function Escaped(c: char): string {
    if c == '"' || c == '\\' then ['\\', c]
    else if c as int == 8 then "\\b"
    else if c as int == 12 then "\\f"
    else if c as int == 10 then "\\n"
    else if c as int == 13 then "\\r"
    else if c as int == 9 then "\\t"
    else if c as int < 0x20 then "\\u00" + [Nibble(c as int / 16), Nibble(c as int % 16)]
    else [c]
  }

  function AllEscaped(s: string): string { if |s| == 0 then "" else Escaped(s[0]) + AllEscaped(s[1..]) }

  function QuotedItem(u: string): Item
    requires |u| > 0
  {
    var c := u[0];
    if |u| > 1 then Unit(u)
    else if c == '"' || c == '\\' then Escape(c)
    else if c as int == 8 then Escape('b')
    else if c as int == 12 then Escape('f')
    else if c as int == 10 then Escape('n')
    else if c as int == 13 then Escape('r')
    else if c as int == 9 then Escape('t')
    else if c as int < 0x20 then Code("00" + [Nibble(c as int / 16), Nibble(c as int % 16)])
    else Unit(u)
  }

  function Quote(s: string): Chars {
    if |s| == 0 then Close else
    var u := if UnitAt(s, 0).Some? then UnitAt(s, 0).value else s[..1];
    Char(QuotedItem(u), Quote(s[|u|..]))
  }

  lemma QuotedItemIs(u: string)
    requires IsUnit(u)
    ensures IsItem(QuotedItem(u)) && ItemMeaning(QuotedItem(u)) == u && ItemText(QuotedItem(u)) == AllEscaped(u)
  {
    if |u| == 1 {
      assert AllEscaped(u) == Escaped(u[0]) + AllEscaped("");
      if u[0] as int < 0x20 {
        ControlIsCode(u[0]);
      }
    } else {
      HighIsRaw(u);
    }
  }

  lemma ControlIsCode(c: char)
    requires c as int < 0x20
    ensures var hex := "00" + [Nibble(c as int / 16), Nibble(c as int % 16)];
            IsHex(hex) && HexValue(hex) == c as int && Encode(HexValue(hex)) == [c] && "\\u" + hex == "\\u00" + hex[2..]
  {
  }

  lemma {:induction false} HighIsRaw(u: string)
    requires forall i :: 0 <= i < |u| ==> u[i] as int >= 0x80
    ensures AllEscaped(u) == u
  {
    if |u| > 0 {
      HighIsRaw(u[1..]);
    }
  }

  lemma {:induction false} AllEscapedJoins(a: string, b: string)
    ensures AllEscaped(a + b) == AllEscaped(a) + AllEscaped(b)
  {
    if |a| == 0 {
      assert a + b == b;
    } else {
      assert (a + b)[1..] == a[1..] + b;
      AllEscapedJoins(a[1..], b);
    }
  }

  /** A quoted string means itself, and is spelt byte by byte. */
  lemma {:induction false} QuoteMeansItself(s: string)
    requires IsUtf8(s)
    ensures AreItems(Quote(s)) && Meaning(Quote(s)) == s && CharsText(Quote(s)) == AllEscaped(s) + "\""
  {
    hide QuotedItem, ItemMeaning, ItemText, AllEscaped, IsItem, UnitAt;
    if |s| == 0 {
      assert AllEscaped("") == "" by { NothingEscaped(); }
    } else {
      var u := UnitAt(s, 0).value;
      QuotedItemIs(u);
      QuoteMeansItself(s[|u|..]);
      assert u + s[|u|..] == s;
      AllEscapedJoins(u, s[|u|..]);
    }
  }

  lemma NothingEscaped()
    ensures AllEscaped("") == ""
  {
  }

  lemma {:induction false} AsciiIsUtf8(s: string)
    requires forall i :: 0 <= i < |s| ==> s[i] as int < 0x80
    ensures IsUtf8(s)
  {
    if |s| > 0 {
      assert s[0..1] == [s[0]];
      AsciiIsUtf8(s[1..]);
    }
  }

  // ---------------------------------------------------------------- selectors

  datatype Entry = Entry(key: string, value: Value)

  function Fields(es: seq<Entry>): Members
    requires |es| > 0
  {
    var m := Member("", Named(Quote(es[0].key), "", ""), es[0].value, "");
    if |es| == 1 then One(m) else More(m, Fields(es[1..]))
  }

  function Object(es: seq<Entry>): Value { if |es| == 0 then Empty(true, "") else Nest(true, Fields(es)) }

  function Elements(vs: seq<Value>): Members
    requires |vs| > 0
  {
    var m := Member("", NoKey, vs[0], "");
    if |vs| == 1 then One(m) else More(m, Elements(vs[1..]))
  }

  function Array(vs: seq<Value>): Value { if |vs| == 0 then Empty(false, "") else Nest(false, Elements(vs)) }

  function OpName(op: S.Operator): string {
    match op
    case Eq => "eq"
    case Ne => "not"
    case Contains => "contains"
    case IContains => "icontains"
    case Prefix => "prefix"
    case IPrefix => "iprefix"
  }

  function SlotName(slot: S.Slot): string {
    match slot
    case Field => "field"
    case Value => "value"
    case Any => "any"
    case IgnoreCase => "ignoreCase"
    case Gt => "gt"
    case Gte => "gte"
    case Lt => "lt"
    case Lte => "lte"
    case After => "after"
    case Before => "before"
    case Since => "since"
  }

  function LiteralTree(literal: S.Literal): Value {
    match literal.kind
    case Quoted => Text(Quote(literal.text))
    case Numeral => Number(literal.text)
    case Boolean => Bool(literal.text == "true")
    case Nothing => Null
  }

  function LiteralTrees(literals: seq<S.Literal>): (r: seq<Value>)
    ensures |r| == |literals|
  {
    if |literals| == 0 then [] else [LiteralTree(literals[0])] + LiteralTrees(literals[1..])
  }

  function BoundTree(bound: S.Bound): Value {
    if bound.NumberBound? then Number(bound.text) else Text(Quote(bound.text))
  }

  function FieldEntry(field: string): Entry { Entry("field", Text(Quote(field))) }

  function ValueEntries(value: Option<S.Literal>): seq<Entry> {
    if value.None? then [] else [Entry("value", LiteralTree(value.value))]
  }

  function AnyEntries(any: seq<S.Literal>): seq<Entry> {
    if |any| == 0 then [] else [Entry("any", Array(LiteralTrees(any)))]
  }

  function CaseEntries(ignoreCase: bool): seq<Entry> { if ignoreCase then [Entry("ignoreCase", Bool(true))] else [] }

  const RANGE_SLOTS: seq<S.Slot> := [S.Gt, S.Gte, S.Lt, S.Lte]
  const DATE_SLOTS: seq<S.Slot> := [S.Value, S.Since, S.After, S.Before, S.Gte, S.Gt, S.Lte, S.Lt]

  function BoundEntries(bounds: map<S.Slot, S.Bound>, slots: seq<S.Slot>): seq<Entry> {
    if |slots| == 0 then [] else
    (if slots[0] in bounds then [Entry(SlotName(slots[0]), BoundTree(bounds[slots[0]]))] else []) + BoundEntries(bounds, slots[1..])
  }

  function TextEntries(texts: map<S.Slot, string>, slots: seq<S.Slot>): seq<Entry> {
    if |slots| == 0 then [] else
    (if slots[0] in texts then [Entry(SlotName(slots[0]), Text(Quote(texts[slots[0]])))] else []) + TextEntries(texts, slots[1..])
  }

  function TermTree(field: string, value: Option<S.Literal>, any: seq<S.Literal>, ignoreCase: bool): Value {
    Object([FieldEntry(field)] + ValueEntries(value) + AnyEntries(any) + CaseEntries(ignoreCase))
  }

  /** The text's tree; its print is the text. */
  function Tree(s: S.Selector): Value {
    match s
    case All => Object([])
    case And(children) => Object([Entry("and", Array(Trees(children)))])
    case Or(children) => Object([Entry("or", Array(Trees(children)))])
    case Not(child) => Object([Entry("not", Tree(child))])
    case Term(op, field, value, any, ignoreCase) =>
      var term := TermTree(field, value, any, ignoreCase);
      Object([Entry(OpName(op), if op == S.Ne then Object([Entry("eq", term)]) else term)])
    case Range(field, bounds) => Object([Entry("range", Object([FieldEntry(field)] + BoundEntries(bounds, RANGE_SLOTS)))])
    case Date(field, texts) => Object([Entry("date", Object([FieldEntry(field)] + TextEntries(texts, DATE_SLOTS)))])
    case In(field, any) => Object([Entry("in", Object([FieldEntry(field), Entry("any", Array(LiteralTrees(any)))]))])
    case Exists(field) => Object([Entry("exists", Text(Quote(field)))])
  }

  function Trees(children: seq<S.Selector>): (r: seq<Value>)
    ensures |r| == |children|
  {
    if |children| == 0 then [] else [Tree(children[0])] + Trees(children[1..])
  }
}
