/** Concrete syntax of JSON texts: the grammar of RFC 8259 with every byte of white space kept. */
module JsonSyntax {
  import opened Utf8
  import JsonNumber

  // ---------------------------------------------------------------- characters of a string

  /** One char of section 7 of RFC 8259: an unescaped character, a two-byte escape, a \u escape, or a pair of them. */
  datatype Item = Unit(bytes: string) | Escape(c: char) | Code(hex: string) | Pair(high: string, low: string)

  function HexDigit(c: char): int {
    if '0' <= c <= '9' then c as int - '0' as int
    else if 'a' <= c <= 'f' then c as int - 'a' as int + 10
    else if 'A' <= c <= 'F' then c as int - 'A' as int + 10
    else -1
  }

  predicate IsHex(s: string) { |s| == 4 && forall i :: 0 <= i < 4 ==> HexDigit(s[i]) >= 0 }

  function HexValue(s: string): int
    requires |s| == 4
  {
    ((HexDigit(s[0]) * 16 + HexDigit(s[1])) * 16 + HexDigit(s[2])) * 16 + HexDigit(s[3])
  }

  predicate IsHigh(v: int) { 0xd800 <= v <= 0xdbff }

  predicate IsLow(v: int) { 0xdc00 <= v <= 0xdfff }

  predicate IsSimple(c: char) { c in "\"\\/bfnrt" }

  function Unescape(c: char): char {
    if c == 'b' then 8 as char
    else if c == 'f' then 12 as char
    else if c == 'n' then 10 as char
    else if c == 'r' then 13 as char
    else if c == 't' then 9 as char
    else c
  }

  predicate IsItem(item: Item) {
    match item
    case Unit(bytes) => IsUnit(bytes) && bytes[0] as int >= 0x20 && bytes[0] != '"' && bytes[0] != '\\'
    case Escape(c) => IsSimple(c)
    case Code(hex) => IsHex(hex) && !IsHigh(HexValue(hex)) && !IsLow(HexValue(hex))
    case Pair(high, low) => IsHex(high) && IsHex(low) && IsHigh(HexValue(high)) && IsLow(HexValue(low))
  }

  function ItemText(item: Item): string {
    match item
    case Unit(bytes) => bytes
    case Escape(c) => ['\\', c]
    case Code(hex) => "\\u" + hex
    case Pair(high, low) => "\\u" + high + "\\u" + low
  }

  function PairValue(high: int, low: int): int { 0x10000 + (high - 0xd800) * 1024 + (low - 0xdc00) }

  lemma HexBounds(s: string)
    requires IsHex(s)
    ensures 0 <= HexValue(s) <= 0xffff
  {
  }

  /** The UTF-8 bytes a character stands for. */
  function ItemMeaning(item: Item): (r: string)
    requires IsItem(item)
    ensures IsUnit(r)
  {
    match item
    case Unit(bytes) => bytes
    case Escape(c) => [Unescape(c)]
    case Code(hex) => HexBounds(hex); DecodeOfEncode(HexValue(hex)); Encode(HexValue(hex))
    case Pair(high, low) =>
      HexBounds(high); HexBounds(low);
      DecodeOfEncode(PairValue(HexValue(high), HexValue(low)));
      Encode(PairValue(HexValue(high), HexValue(low)))
  }

  /** The characters between two quotes. */
  datatype Chars = Close | Char(item: Item, rest: Chars)

  predicate AreItems(chars: Chars) { chars.Char? ==> IsItem(chars.item) && AreItems(chars.rest) }

  function CharsText(chars: Chars): string {
    if chars.Close? then "\"" else ItemText(chars.item) + CharsText(chars.rest)
  }

  /** The decoded string. */
  function Meaning(chars: Chars): string
    requires AreItems(chars)
  {
    if chars.Close? then "" else ItemMeaning(chars.item) + Meaning(chars.rest)
  }

  // ---------------------------------------------------------------- values

  datatype Value = Null | Bool(value: bool) | Number(text: string) | Text(chars: Chars)
                 | Empty(braces: bool, space: string)
                 | Nest(braces: bool, members: Members)

  /** An element of an array, or a member of an object with its key, and the white space around the parts. */
  datatype Member = Member(before: string, key: Key, value: Value, after: string)

  datatype Key = NoKey | Named(chars: Chars, colon: string, gap: string)

  datatype Members = One(member: Member) | More(member: Member, rest: Members)

  predicate IsSpace(c: char) { c == ' ' || c == '\t' || c == '\r' || c == '\n' }

  predicate AllSpace(s: string) { forall i :: 0 <= i < |s| ==> IsSpace(s[i]) }

  ghost predicate WellFormed(v: Value) {
    match v
    case Number(text) => JsonNumber.IsJsonNumber(text)
    case Text(chars) => AreItems(chars)
    case Empty(_, space) => AllSpace(space)
    case Nest(braces, members) => WellFormedMembers(members, braces)
    case _ => true
  }

  ghost predicate WellFormedMembers(ms: Members, braces: bool) {
    WellFormedMember(ms.member, braces) && (ms.More? ==> WellFormedMembers(ms.rest, braces))
  }

  ghost predicate WellFormedMember(m: Member, braces: bool) {
    && AllSpace(m.before) && AllSpace(m.after) && WellFormed(m.value)
    && m.key.Named? == braces && (m.key.Named? ==> WellFormedKey(m.key))
  }

  predicate WellFormedKey(key: Key)
    requires key.Named?
  {
    AreItems(key.chars) && AllSpace(key.colon) && AllSpace(key.gap)
  }

  // ---------------------------------------------------------------- printing

  function Open(braces: bool): string { if braces then "{" else "[" }

  function Closing(braces: bool): string { if braces then "}" else "]" }

  function Literal(v: Value): string
    requires v.Null? || v.Bool?
  {
    if v.Null? then "null" else if v.value then "true" else "false"
  }

  function Print(v: Value): string {
    match v
    case Number(text) => text
    case Text(chars) => "\"" + CharsText(chars)
    case Empty(braces, space) => Open(braces) + space + Closing(braces)
    case Nest(braces, members) => Open(braces) + PrintMembers(members, braces)
    case _ => Literal(v)
  }

  function PrintMembers(ms: Members, braces: bool): string {
    match ms
    case One(m) => PrintMember(m) + Closing(braces)
    case More(m, rest) => PrintMember(m) + "," + PrintMembers(rest, braces)
  }

  function PrintMember(m: Member): string {
    m.before + PrintKey(m.key) + Print(m.value) + m.after
  }

  function PrintKey(key: Key): string {
    if key.NoKey? then "" else "\"" + CharsText(key.chars) + key.colon + ":" + key.gap
  }

  // ---------------------------------------------------------------- without white space

  /** The same value without insignificant white space. */
  function Strip(v: Value): Value {
    match v
    case Empty(braces, _) => Empty(braces, "")
    case Nest(braces, members) => Nest(braces, StripMembers(members))
    case _ => v
  }

  function StripMembers(ms: Members): Members {
    match ms
    case One(m) => One(StripMember(m))
    case More(m, rest) => More(StripMember(m), StripMembers(rest))
  }

  function StripMember(m: Member): Member {
    Member("", if m.key.NoKey? then NoKey else Named(m.key.chars, "", ""), Strip(m.value), "")
  }

  lemma {:induction false} StripKeepsWellFormed(v: Value)
    requires WellFormed(v)
    ensures WellFormed(Strip(v))
  {
    if v.Nest? {
      StripMembersKeepsWellFormed(v.members, v.braces);
    }
  }

  lemma {:induction false} StripMembersKeepsWellFormed(ms: Members, braces: bool)
    requires WellFormedMembers(ms, braces)
    ensures WellFormedMembers(StripMembers(ms), braces)
  {
    StripKeepsWellFormed(ms.member.value);
    if ms.More? {
      StripMembersKeepsWellFormed(ms.rest, braces);
    }
  }

  /** Stripping twice is stripping once. */
  lemma {:induction false} StripTwice(v: Value)
    ensures Strip(Strip(v)) == Strip(v)
  {
    if v.Nest? {
      StripMembersTwice(v.members);
    }
  }

  lemma {:induction false} StripMembersTwice(ms: Members)
    ensures StripMembers(StripMembers(ms)) == StripMembers(ms)
  {
    StripTwice(ms.member.value);
    if ms.More? {
      StripMembersTwice(ms.rest);
    }
  }

  /** A text is as long as its stripped form exactly when it has no white space to lose. */
  lemma {:induction false} StripShortens(v: Value)
    ensures |Print(Strip(v))| <= |Print(v)|
    ensures |Print(Strip(v))| == |Print(v)| ==> Strip(v) == v
  {
    if v.Nest? {
      StripMembersShortens(v.members, v.braces);
    }
  }

  lemma {:induction false} StripMembersShortens(ms: Members, braces: bool)
    ensures |PrintMembers(StripMembers(ms), braces)| <= |PrintMembers(ms, braces)|
    ensures |PrintMembers(StripMembers(ms), braces)| == |PrintMembers(ms, braces)| ==> StripMembers(ms) == ms
  {
    StripMemberShortens(ms.member);
    if ms.More? {
      StripMembersShortens(ms.rest, braces);
    }
  }

  lemma {:induction false} StripMemberShortens(m: Member)
    ensures |PrintMember(StripMember(m))| <= |PrintMember(m)|
    ensures |PrintMember(StripMember(m))| == |PrintMember(m)| ==> StripMember(m) == m
  {
    hide Print, Strip;
    StripShortens(m.value);
    StripKeyShortens(m.key);
  }

  lemma StripKeyShortens(key: Key)
    ensures var k := if key.NoKey? then NoKey else Named(key.chars, "", "");
      |PrintKey(k)| <= |PrintKey(key)| && (|PrintKey(k)| == |PrintKey(key)| ==> k == key)
  {
  }

  /** The compact text is the text itself exactly when nothing was stripped. */
  lemma CompactTextIsText(v: Value)
    ensures Print(Strip(v)) == Print(v) <==> Strip(v) == v
  {
    StripShortens(v);
  }

  // ---------------------------------------------------------------- depth

  /** How deeply objects and arrays nest. */
  function Nesting(v: Value): nat {
    match v
    case Empty(_, _) => 1
    case Nest(_, members) => 1 + NestingOf(members)
    case _ => 0
  }

  function NestingOf(ms: Members): nat {
    match ms
    case One(m) => Nesting(m.value)
    case More(m, rest) => Max(Nesting(m.value), NestingOf(rest))
  }

  function Max(a: nat, b: nat): nat { if a < b then b else a }

  const MAX_DEPTH := 128

  /** No array with elements opens as the 128th level: the one text on which scanner and skipper differ. */
  predicate Shallow(v: Value, depth: nat) {
    v.Nest? ==> (v.braces || depth + 1 < MAX_DEPTH) && ShallowMembers(v.members, depth + 1)
  }

  predicate ShallowMembers(ms: Members, depth: nat) {
    match ms
    case One(m) => Shallow(m.value, depth)
    case More(m, rest) => Shallow(m.value, depth) && ShallowMembers(rest, depth)
  }

  lemma {:induction false} FewLevelsAreShallow(v: Value, depth: nat)
    requires depth + Nesting(v) < MAX_DEPTH
    ensures Shallow(v, depth)
  {
    if v.Nest? {
      FewLevelsAreShallowMembers(v.members, depth + 1);
    }
  }

  lemma {:induction false} FewLevelsAreShallowMembers(ms: Members, depth: nat)
    requires depth + NestingOf(ms) < MAX_DEPTH
    ensures ShallowMembers(ms, depth)
  {
    FewLevelsAreShallow(ms.member.value, depth);
    if ms.More? {
      FewLevelsAreShallowMembers(ms.rest, depth);
    }
  }
}
