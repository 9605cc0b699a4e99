/** Selectors and the frame stack that builds one from the events of a JSON text (src/lql_selector.c). */
module Selectors {
  import opened Wrappers
  import opened JsonSyntax
  import JsonNumber
  import JsonParse
  import JsonRoundTrip
  import MutationPath
  import TextMatch
  import Timestamp

  // ---------------------------------------------------------------- selectors

  datatype Operator = Eq | Ne | Contains | IContains | Prefix | IPrefix

  datatype Kind = AndKind | OrKind | NotKind | TermKind(op: Operator) | RangeKind | DateKind | InKind | ExistsKind

  datatype LiteralKind = Quoted | Numeral | Boolean | Nothing

  /** A scalar to compare with; a number, true, false or null keeps its text. */
  datatype Literal = Literal(kind: LiteralKind, text: string)

  datatype Bound = NumberBound(text: string) | TimeBound(text: string)

  datatype Slot = Field | Value | Any | IgnoreCase | Gt | Gte | Lt | Lte | After | Before | Since

  datatype Selector = All
                    | And(children: seq<Selector>)
                    | Or(children: seq<Selector>)
                    | Not(child: Selector)
                    | Term(op: Operator, field: string, value: Option<Literal>, any: seq<Literal>, ignoreCase: bool)
                    | Range(field: string, bounds: map<Slot, Bound>)
                    | Date(field: string, texts: map<Slot, string>)
                    | In(field: string, any: seq<Literal>)
                    | Exists(field: string)

  /** src/lql_selector.c:528-566 and 1576-1600. */
  function KindOf(key: string): Option<Kind> {
    if key == "and" then Some(AndKind)
    else if key == "or" then Some(OrKind)
    else if key == "not" then Some(NotKind)
    else if key == "eq" then Some(TermKind(Eq))
    else if key == "contains" then Some(TermKind(Contains))
    else if key == "icontains" then Some(TermKind(IContains))
    else if key == "prefix" then Some(TermKind(Prefix))
    else if key == "iprefix" then Some(TermKind(IPrefix))
    else if key == "range" then Some(RangeKind)
    else if key == "date" then Some(DateKind)
    else if key == "in" then Some(InKind)
    else if key == "exists" then Some(ExistsKind)
    else None
  }

  predicate Comparing(slot: Slot) { slot == Gt || slot == Gte || slot == Lt || slot == Lte }

  /** The slot a key of a predicate object fills, if the operator has it (src/lql_selector.c:433-488 and 1602-1639). */
  function SlotOf(kind: Kind, key: string): Option<Slot> {
    if key == "field" || key == "f" then Some(Field)
    else if key == "value" || key == "v" then (if kind.TermKind? || kind.DateKind? then Some(Value) else None)
    else if key == "ignoreCase" || key == "ignorecase" || key == "ic" then (if kind.TermKind? && Textual(kind.op) then Some(IgnoreCase) else None)
    else if key == "any" then (if Anys(kind) then Some(Any) else None)
    else if key == "a" then (if Anys(kind) then Some(Any) else if kind.DateKind? then Some(After) else None)
    else if !kind.RangeKind? && !kind.DateKind? then None
    else if key == "gt" then Some(Gt)
    else if key == "gte" then Some(Gte)
    else if key == "lt" then Some(Lt)
    else if key == "lte" then Some(Lte)
    else if kind.RangeKind? then None
    else if key == "after" then Some(After)
    else if key == "before" || key == "b" then Some(Before)
    else if key == "since" then Some(Since)
    else None
  }

  /** The operators that look for text, whatever the literal's kind. */
  predicate Textual(op: Operator) { op != Eq && op != Ne }

  predicate Anys(kind: Kind) { kind == TermKind(Contains) || kind == TermKind(IContains) || kind == InKind }

  function KindFor(kind: Kind, literal: LiteralKind): LiteralKind {
    if kind.TermKind? && Textual(kind.op) then Quoted else literal
  }

  // ---------------------------------------------------------------- fields

  /** Trailing [] suffixes of a segment become segments. */
  function Spread(s: string): (r: string)
    decreases |s|
  {
    if |s| > 2 && s[|s| - 2..] == "[]" then Spread(s[..|s| - 2]) + "/[]" else s
  }

  function Assemble(out: string, rest: string): string
    decreases |rest|
  {
    if |rest| == 0 then out else
    var slash := MutationPath.Find(rest, 0, '/');
    var next := out + (if |out| > 1 then "/" else "") + Spread(rest[..slash]);
    if slash == |rest| then next else Assemble(next, rest[slash + 1..])
  }

  function Normalize(field: string): string
    requires IsPointer(field)
  {
    Assemble("/", field[1..])
  }

  predicate IsPointer(field: string) { |field| > 0 && field[0] == '/' }

  predicate HasNul(s: string) { '\0' in s }

  // ---------------------------------------------------------------- bounds

  function DropBlanks(s: string): (r: string)
    ensures |r| <= |s|
  {
    if |s| > 0 && Timestamp.IsSpace(s[0]) then DropBlanks(s[1..]) else s
  }

  function ChopBlanks(s: string): (r: string)
    ensures |r| <= |s|
  {
    if |s| > 0 && Timestamp.IsSpace(s[|s| - 1]) then ChopBlanks(s[..|s| - 1]) else s
  }

  function Trim(s: string): string { ChopBlanks(DropBlanks(s)) }

  /** lql_parse_temporal_literal takes it. */
  predicate IsTime(s: string) { Timestamp.Literal(s, Timestamp.Options(true, true, true)).Some? }

  predicate IsNumber(s: string) { JsonNumber.ReadLayout(s).Some? }

  /** src/lql_selector.c:688-776. */
  function RangeBound(text: string): Option<Bound> {
    var trimmed := Trim(text);
    if IsTime(trimmed) then Some(TimeBound(trimmed)) else if IsNumber(trimmed) then Some(NumberBound(trimmed)) else None
  }

  /** src/lql_selector.c:778-850. */
  predicate IsDateBound(slot: Slot, text: string) {
    (slot == Since && TextMatch.LowerAsciiText(text) in ["now", "today", "yesterday"]) || IsTime(text)
  }

  // ---------------------------------------------------------------- a predicate under construction

  datatype Partial = Partial(kind: Kind, field: Option<string>, value: Option<Literal>, any: seq<Literal>, ignoreCase: bool,
                             bounds: map<Slot, Bound>, texts: map<Slot, string>, seen: set<Slot>)

  function Fresh(kind: Kind): Partial { Partial(kind, None, None, [], false, map[], map[], {}) }

  /** Alternatives written as one text between bars (src/lql_selector.c:590-645); spoilt when one has to be refused. */
  datatype Alternatives = Alternatives(items: seq<Literal>, spoilt: bool)

  function GuessKind(text: string): LiteralKind {
    if text == "true" || text == "false" then Boolean
    else if text == "null" then Nothing
    else if IsNumber(text) then Numeral
    else Quoted
  }

  function Split(kind: Kind, text: string): Alternatives
    decreases |text|
  {
    var bar := MutationPath.Find(text, 0, '|');
    var item := Trim(text[..bar]);
    var first := if item == "" then [] else [Literal(KindFor(kind, GuessKind(item)), item)];
    var spoilt := kind == InKind && item != "" && item != text[..bar];
    if bar == |text| then Alternatives(first, spoilt)
    else
      var rest := Split(kind, text[bar + 1..]);
      Alternatives(first + rest.items, spoilt || rest.spoilt)
  }

  function StoreDate(p: Partial, slot: Slot, text: string): Option<Partial> {
    if HasNul(text) || !IsDateBound(slot, text) then None else Some(p.(texts := p.texts[slot := text]))
  }

  function StoreBound(p: Partial, slot: Slot, text: string): Option<Partial> {
    match RangeBound(text)
    case None => None
    case Some(bound) => Some(p.(bounds := p.bounds[slot := bound]))
  }

  /** A string member of a predicate object (src/lql_selector.c:2083-2170). */
  function StoreText(p: Partial, slot: Slot, text: string): Option<Partial> {
    if slot == Value && !p.kind.DateKind? then Some(p.(value := Some(Literal(Quoted, text))))
    else if HasNul(text) then None
    else match slot
      case Field => if IsPointer(text) then Some(p.(field := Some(Normalize(text)))) else None
      case Any =>
        var more := Split(p.kind, text);
        if more.spoilt || |more.items| == 0 then None else Some(p.(any := p.any + more.items))
      case IgnoreCase =>
        if text == "true" || text == "t" then Some(p.(ignoreCase := true))
        else if text == "false" || text == "f" then Some(p.(ignoreCase := false))
        else None
      case _ => if p.kind.DateKind? then StoreDate(p, slot, text) else StoreBound(p, slot, text)
  }

  /** Any other scalar member (src/lql_selector.c:1704-1733 and 2234-2321). */
  function StoreScalar(p: Partial, slot: Slot, literal: Literal): Option<Partial> {
    if Comparing(slot) && p.kind.RangeKind? && literal.kind == Numeral then StoreBound(p, slot, literal.text)
    else if slot == IgnoreCase && literal.kind == Boolean then Some(p.(ignoreCase := literal.text == "true"))
    else if slot == Value && !p.kind.DateKind? then Some(p.(value := Some(Literal(KindFor(p.kind, literal.kind), literal.text))))
    else None
  }

  /** A predicate that every record meets (src/lql_selector.c:1179-1206). */
  predicate MatchesAll(op: Operator, field: string, value: Option<Literal>, any: seq<Literal>) {
    && Textual(op) && any == [] && (value.Some? ==> value.value.text == "")
    && (field == "/" || ((op == Contains || op == IContains) && (field == "/*" || field == "/...")))
  }

  predicate Mixed(bounds: map<Slot, Bound>) {
    exists a, b :: a in bounds && b in bounds && bounds[a].NumberBound? && bounds[b].TimeBound?
  }

  /** Which slots of a date predicate go together (src/lql_selector.c:1778-1797). */
  predicate DatesClash(seen: set<Slot>) {
    (Since in seen && seen - {Field, Since} != {}) || (After in seen && Gt in seen) || (Before in seen && Lt in seen)
  }

  /** The finished predicate (src/lql_selector.c:1735-1808 and 1991-2004). */
  function Finish(p: Partial): Option<Selector> {
    if p.field.None? then None
    else match p.kind
      case TermKind(op) =>
        if (op == Contains || op == IContains) && p.any != [] && p.value.Some? then None
        else if MatchesAll(op, p.field.value, p.value, p.any) then Some(All)
        else Some(Term(op, p.field.value, p.value, p.any, p.ignoreCase))
      case RangeKind => if p.bounds == map[] || Mixed(p.bounds) then None else Some(Range(p.field.value, p.bounds))
      case DateKind => if DatesClash(p.seen) || p.texts == map[] then None else Some(Date(p.field.value, p.texts))
      case InKind => if p.any == [] then None else Some(In(p.field.value, p.any))
      case _ => None
  }

  // ---------------------------------------------------------------- frames

  /** One level of the stack. The bottom, below every frame, takes the root selector. A node keeps its operator while its
      operand is pending, and then the selector it stands for. */
  datatype Frame = Bottom(result: Option<Selector>)
                 | Node(kind: Option<Kind>, pending: bool, body: Selector)
                 | Children(children: seq<Selector>)
                 | Predicate(partial: Partial, slot: Option<Slot>)
                 | AnyArray(whose: Kind, items: seq<Literal>)

  const NODE := Node(None, false, All)

  /** src/lql_selector.c:1844-1886. */
  function OnKey(f: Frame, key: string): Option<Frame> {
    if HasNul(key) then None
    else match f
      case Node(kind, _, _) =>
        if kind.Some? || KindOf(key).None? then None else Some(Node(KindOf(key), true, All))
      case Predicate(p, _) =>
        var slot := SlotOf(p.kind, key);
        if slot.None? || slot.value in p.seen then None
        else Some(Predicate(p.(seen := p.seen + {slot.value}), slot))
      case _ => None
  }

  /** src/lql_selector.c:2172-2223. */
  function OnText(f: Frame, text: string): Option<Frame> {
    match f
    case Node(kind, pending, _) =>
      if !pending || kind != Some(ExistsKind) || HasNul(text) || !IsPointer(text) then None
      else Some(Node(kind, false, Exists(Normalize(text))))
    case Predicate(p, slot) =>
      if slot.None? then None else Settled(StoreText(p, slot.value, text))
    case AnyArray(kind, items) => Some(AnyArray(kind, items + [Literal(Quoted, text)]))
    case _ => None
  }

  function OnScalar(f: Frame, literal: Literal): Option<Frame> {
    match f
    case Predicate(p, slot) =>
      if slot.None? then None else Settled(StoreScalar(p, slot.value, literal))
    case AnyArray(kind, items) => Some(AnyArray(kind, items + [Literal(KindFor(kind, literal.kind), literal.text)]))
    case _ => None
  }

  function Settled(p: Option<Partial>): Option<Frame> {
    if p.None? then None else Some(Predicate(p.value, None))
  }

  /** The frame an object opens (src/lql_selector.c:1898-1964). */
  function OpenObject(f: Frame): Option<Frame> {
    match f
    case Bottom(_) => Some(NODE)
    case Children(_) => Some(NODE)
    case Node(kind, pending, _) =>
      if !pending then None
      else if kind == Some(NotKind) then Some(NODE)
      else if kind.Some? && kind.value != AndKind && kind.value != OrKind && kind.value != ExistsKind
      then Some(Predicate(Fresh(kind.value), None))
      else None
    case _ => None
  }

  /** What the finished frame of an object leaves in the frame below (src/lql_selector.c:1966-2008). */
  function CloseObject(below: Frame, f: Frame): Option<Frame> {
    match f
    case Node(kind, pending, body) => if pending then None else Some(Put(below, body))
    case Predicate(p, slot) =>
      if slot.Some? || Finish(p).None? then None else Some(Put(below, Finish(p).value))
    case _ => None
  }

  function Put(below: Frame, s: Selector): Frame {
    match below
    case Bottom(_) => Bottom(Some(s))
    case Children(children) => Children(children + [s])
    case Node(kind, _, _) => Node(kind, false, if kind == Some(NotKind) then Not(s) else s)
    case _ => below
  }

  /** src/lql_selector.c:2010-2046. */
  function OpenArray(f: Frame): Option<Frame> {
    match f
    case Node(kind, pending, _) =>
      if pending && (kind == Some(AndKind) || kind == Some(OrKind)) then Some(Children([])) else None
    case Predicate(p, slot) => if slot == Some(Any) then Some(AnyArray(p.kind, [])) else None
    case _ => None
  }

  function CloseArray(below: Frame, f: Frame): Option<Frame> {
    match f
    case Children(children) =>
      if below.Node? then Some(Node(below.kind, false, if below.kind == Some(AndKind) then And(children) else Or(children))) else None
    case AnyArray(_, items) =>
      if below.Predicate? then Some(Predicate(below.partial.(any := below.partial.any + items), None)) else None
    case _ => None
  }

  function OpenFrame(f: Frame, braces: bool): Option<Frame> { if braces then OpenObject(f) else OpenArray(f) }

  function CloseFrame(below: Frame, f: Frame, braces: bool): Option<Frame> {
    if braces then CloseObject(below, f) else CloseArray(below, f)
  }

  // ---------------------------------------------------------------- a whole value

  /** What a value of the text leaves in the frame that takes it. */
  function Take(f: Frame, v: JsonSyntax.Value): Option<Frame>
    requires WellFormed(v)
    decreases v
  {
    match v
    case Text(chars) => OnText(f, Meaning(chars))
    case Number(text) => OnScalar(f, Literal(Numeral, text))
    case Bool(b) => OnScalar(f, Literal(Boolean, if b then "true" else "false"))
    case Null => OnScalar(f, Literal(Nothing, "null"))
    case Empty(braces, _) =>
      var inner := OpenFrame(f, braces);
      if inner.None? then None else CloseFrame(f, inner.value, braces)
    case Nest(braces, members) =>
      var inner := OpenFrame(f, braces);
      if inner.None? then None else
      var filled := TakeMembers(inner.value, members, braces);
      if filled.None? then None else CloseFrame(f, filled.value, braces)
  }

  function TakeMembers(f: Frame, ms: Members, braces: bool): Option<Frame>
    requires WellFormedMembers(ms, braces)
    decreases ms
  {
    var first := TakeMember(f, ms.member, braces);
    if first.None? || ms.One? then first else TakeMembers(first.value, ms.rest, braces)
  }

  function TakeMember(f: Frame, m: Member, braces: bool): Option<Frame>
    requires WellFormedMember(m, braces)
    decreases m
  {
    if m.key.NoKey? then Take(f, m.value) else
    var keyed := OnKey(f, Meaning(m.key.chars));
    if keyed.None? then None else Take(keyed.value, m.value)
  }

  /** The selector a text stands for (src/lql_selector.c:2796-2876). There is a level of nesting to spare for every byte. */
  function Read(text: string): Option<Selector> {
    var start := JsonParse.SpaceEnd(text, 0);
    var parsed := JsonParse.ParseValue(text, start, -|text|);
    if parsed.None? || JsonParse.SpaceEnd(text, parsed.value.next) != |text| then None else
    JsonRoundTrip.ParsedIsThere(text, start, -|text|);
    match Take(Bottom(None), parsed.value.value)
    case Some(Bottom(result)) => result
    case _ => None
  }
}
