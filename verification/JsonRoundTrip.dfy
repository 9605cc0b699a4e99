/** The reader of JSON texts and the printer of their syntax are inverse to each other. */
module JsonRoundTrip {
  import opened Wrappers
  import opened Utf8
  import opened JsonSyntax
  import opened JsonParse
  import opened Digits
  import JsonNumber

  lemma Cut(s: string, a: nat, b: nat, c: nat)
    requires a <= b <= c <= |s|
    ensures s[a..c] == s[a..b] + s[b..c]
  {
  }

  lemma Join(s: string, pos: nat, a: string, b: string)
    ensures At(s, pos, a + b) <==> At(s, pos, a) && At(s, pos + |a|, b)
  {
    if At(s, pos, a + b) {
      assert (a + b)[..|a|] == a && (a + b)[|a|..] == b;
      assert s[pos..pos + |a + b|][..|a|] == s[pos..pos + |a|];
      assert s[pos..pos + |a + b|][|a|..] == s[pos + |a|..pos + |a + b|];
    }
    if At(s, pos, a) && At(s, pos + |a|, b) {
      Cut(s, pos, pos + |a|, pos + |a| + |b|);
    }
  }

  lemma AtSlice(s: string, pos: nat, piece: string)
    requires At(s, pos, piece)
    ensures pos + |piece| <= |s| && s[pos..pos + |piece|] == piece
  {
  }

  // ---------------------------------------------------------------- what is read is what is there

  lemma ItemIsThere(s: string, pos: nat)
    requires pos <= |s| && ItemAt(s, pos).Some?
    ensures At(s, pos, ItemText(ItemAt(s, pos).value))
  {
    hide HexValue, IsHex, IsItem, UnitAt, PairValue;
    if s[pos] == '\\' && s[pos + 1] == 'u' {
      CodeIsThere(s, pos);
      if ItemAt(s, pos).value.Pair? {
        CodeIsThere(s, pos + 6);
        Join(s, pos, "\\u" + s[pos + 2..pos + 6], "\\u" + s[pos + 8..pos + 12]);
        assert ItemText(ItemAt(s, pos).value) == "\\u" + s[pos + 2..pos + 6] + ("\\u" + s[pos + 8..pos + 12]);
      }
    }
  }

  lemma CodeIsThere(s: string, pos: nat)
    requires pos + 6 <= |s| && s[pos] == '\\' && s[pos + 1] == 'u'
    ensures At(s, pos, "\\u" + s[pos + 2..pos + 6])
  {
    Join(s, pos, "\\u", s[pos + 2..pos + 6]);
  }

  lemma {:induction false} StringIsThere(s: string, pos: nat)
    requires pos <= |s| && StringAt(s, pos).Some?
    ensures s[pos..StringAt(s, pos).value.next] == CharsText(StringAt(s, pos).value.chars)
    decreases |s| - pos
  {
    hide ItemAt, ItemText;
    if s[pos] != '"' {
      var mid := pos + |ItemText(ItemAt(s, pos).value)|;
      ItemIsThere(s, pos);
      StringIsThere(s, mid);
      Cut(s, pos, mid, StringAt(s, pos).value.next);
    }
  }

  lemma DigitsInSlice(s: string, pos: nat, end: nat, a: nat, b: nat)
    requires pos <= a <= b <= end <= |s| && JsonNumber.DigitsIn(s, a, b)
    ensures JsonNumber.DigitsIn(s[pos..end], a - pos, b - pos)
  {
  }

  lemma NumberIsThere(s: string, pos: nat)
    requires pos <= |s| && NumberEnd(s, pos).Some?
    ensures JsonNumber.IsJsonNumber(s[pos..NumberEnd(s, pos).value])
  {
    hide JsonNumber.DigitsIn, JsonNumber.IntegerPart, JsonNumber.FractionPart, JsonNumber.ExponentPart, ExponentEnd, ExpStart;
    var start := if IsAt(s, pos, '-') then pos + 1 else pos;
    var intEnd := IntegerEnd(s, pos).value;
    var fracEnd := FractionEnd(s, intEnd).value;
    var end := NumberEnd(s, pos).value;
    ExponentIsThere(s, pos, start, intEnd, fracEnd);
    var l := JsonNumber.Layout(start - pos, intEnd - pos, fracEnd - pos, ExpStart(s, fracEnd) - pos);
    IntegerIsThere(s, pos, end, start, intEnd, l);
    FractionIsThere(s, pos, end, intEnd, fracEnd, l);
    assert JsonNumber.Matches(s[pos..end], l);
  }

  lemma IntegerIsThere(s: string, pos: nat, end: nat, start: nat, intEnd: nat, l: JsonNumber.Layout)
    requires pos <= start < intEnd <= end <= |s| && (start == pos || (start == pos + 1 && s[pos] == '-'))
    requires IsDigit(s[start]) && intEnd == if s[start] == '0' then start + 1 else JsonNumber.DigitsEnd(s, start)
    requires l.start == start - pos && l.intEnd == intEnd - pos
    ensures JsonNumber.IntegerPart(s[pos..end], l)
  {
    if s[start] == '0' {
      assert JsonNumber.DigitsIn(s, start, intEnd);
    }
    DigitsInSlice(s, pos, end, start, intEnd);
  }

  lemma FractionIsThere(s: string, pos: nat, end: nat, intEnd: nat, fracEnd: nat, l: JsonNumber.Layout)
    requires pos <= intEnd <= fracEnd <= end <= |s| && l.intEnd == intEnd - pos && l.fracEnd == fracEnd - pos
    requires if IsAt(s, intEnd, '.') then DigitAt(s, intEnd + 1) && fracEnd == JsonNumber.DigitsEnd(s, intEnd + 1)
             else fracEnd == intEnd
    ensures JsonNumber.FractionPart(s[pos..end], l)
  {
    if fracEnd > intEnd {
      DigitsInSlice(s, pos, end, intEnd + 1, fracEnd);
    }
  }

  lemma ExponentIsThere(s: string, pos: nat, start: nat, intEnd: nat, fracEnd: nat)
    requires pos <= start <= intEnd <= fracEnd <= |s| && ExponentEnd(s, fracEnd).Some?
    ensures fracEnd <= ExpStart(s, fracEnd)
    ensures JsonNumber.ExponentPart(s[pos..ExponentEnd(s, fracEnd).value],
              JsonNumber.Layout(start - pos, intEnd - pos, fracEnd - pos, ExpStart(s, fracEnd) - pos))
  {
    var end := ExponentEnd(s, fracEnd).value;
    if ExpStart(s, fracEnd) > fracEnd {
      DigitsInSlice(s, pos, end, ExpStart(s, fracEnd), end);
    }
  }

  /** What the reader returns is well-formed, fits the depth, and prints as the bytes that were read. */
  lemma {:induction false} ParsedIsThere(s: string, pos: nat, depth: int)
    requires pos <= |s| && ParseValue(s, pos, depth).Some? && depth <= MAX_DEPTH
    ensures var p := ParseValue(s, pos, depth).value;
      WellFormed(p.value) && s[pos..p.next] == Print(p.value) && depth + Nesting(p.value) <= MAX_DEPTH
    decreases |s| - pos, 0
  {
    if s[pos] == '{' || s[pos] == '[' {
      ContainerIsThere(s, pos, depth);
    } else {
      ScalarIsThere(s, pos);
    }
  }

  lemma ScalarIsThere(s: string, pos: nat)
    requires pos < |s| && ParseScalar(s, pos).Some?
    ensures var p := ParseScalar(s, pos).value;
      WellFormed(p.value) && s[pos..p.next] == Print(p.value) && Nesting(p.value) == 0
  {
    hide StringAt, NumberEnd, At, Literal, CharsText, AreItems, JsonNumber.IsJsonNumber;
    var p := ParseScalar(s, pos).value;
    if p.value.Text? {
      StringIsThere(s, pos + 1);
      Quoted(s, pos, p.next);
    } else if p.value.Number? {
      NumberIsThere(s, pos);
    } else {
      AtSlice(s, pos, Literal(p.value));
    }
  }

  lemma Quoted(s: string, pos: nat, end: nat)
    requires pos + 1 <= end <= |s| && s[pos] == '"'
    ensures s[pos..end] == "\"" + s[pos + 1..end]
  {
  }

  lemma {:induction false} ContainerIsThere(s: string, pos: nat, depth: int)
    requires pos < |s| && (s[pos] == '{' || s[pos] == '[') && ParseContainer(s, pos, depth).Some?
    ensures var p := ParseContainer(s, pos, depth).value;
      WellFormed(p.value) && s[pos..p.next] == Print(p.value) && depth + Nesting(p.value) <= MAX_DEPTH
    decreases |s| - pos - 1, 4
  {
    hide ParseMembers, SpaceEnd, WellFormedMembers, PrintMembers, NestingOf;
    var p := ParseContainer(s, pos, depth).value;
    var braces := s[pos] == '{';
    assert s[pos..pos + 1] == Open(braces);
    if p.value.Empty? {
      EmptyIsThere(s, pos, p.next, braces);
    } else {
      MembersAreThere(s, pos + 1, depth + 1, braces);
      Cut(s, pos, pos + 1, p.next);
    }
  }

  lemma EmptyIsThere(s: string, pos: nat, end: nat, braces: bool)
    requires pos + 1 < end <= |s| && s[pos..pos + 1] == Open(braces) && s[end - 1] == Closing(braces)[0]
    ensures s[pos..end] == Open(braces) + s[pos + 1..end - 1] + Closing(braces)
  {
  }

  lemma {:induction false} MembersAreThere(s: string, pos: nat, depth: int, braces: bool)
    requires pos <= |s| && ParseMembers(s, pos, depth, braces).Some? && depth <= MAX_DEPTH
    ensures var p := ParseMembers(s, pos, depth, braces).value;
      && WellFormedMembers(p.members, braces) && s[pos..p.next] == PrintMembers(p.members, braces)
      && depth + NestingOf(p.members) <= MAX_DEPTH
    decreases |s| - pos, 3
  {
    hide ParseMember, WellFormedMember, PrintMember;
    var p := ParseMembers(s, pos, depth, braces).value;
    var m := ParseMember(s, pos, depth, braces).value;
    MemberIsThere(s, pos, depth, braces);
    Cut(s, pos, m.next, p.next);
    if p.members.One? {
      assert s[m.next..p.next] == Closing(braces);
    } else {
      MembersAreThere(s, m.next + 1, depth, braces);
      Cut(s, m.next, m.next + 1, p.next);
      assert s[m.next..m.next + 1] == ",";
    }
  }

  lemma {:induction false} MemberIsThere(s: string, pos: nat, depth: int, braces: bool)
    requires pos <= |s| && ParseMember(s, pos, depth, braces).Some? && depth <= MAX_DEPTH
    ensures var p := ParseMember(s, pos, depth, braces).value;
      && WellFormedMember(p.member, braces) && s[pos..p.next] == PrintMember(p.member)
      && depth + Nesting(p.member.value) <= MAX_DEPTH
    decreases |s| - pos, 2
  {
    hide ParseKey, ParseValue, Print, PrintKey, SpaceEnd, WellFormed, WellFormedKey;
    var q := SpaceEnd(s, pos);
    KeyIsThere(s, q, braces);
    var k := ParseKey(s, q, braces).value;
    ParsedIsThere(s, k.next, depth);
    var v := ParseValue(s, k.next, depth).value;
    var end := SpaceEnd(s, v.next);
    Cut(s, pos, q, k.next);
    Cut(s, pos, k.next, v.next);
    Cut(s, pos, v.next, end);
  }

  lemma KeyIsThere(s: string, pos: nat, braces: bool)
    requires pos <= |s| && ParseKey(s, pos, braces).Some?
    ensures var p := ParseKey(s, pos, braces).value;
      p.key.Named? == braces && (braces ==> WellFormedKey(p.key)) && s[pos..p.next] == PrintKey(p.key)
  {
    hide StringAt, SpaceEnd;
    if braces {
      var t := StringAt(s, pos + 1).value.next;
      StringIsThere(s, pos + 1);
      var colon := SpaceEnd(s, t);
      var gap := SpaceEnd(s, colon + 1);
      assert s[pos..pos + 1] == "\"" && s[colon..colon + 1] == ":";
      Cut(s, pos, pos + 1, t);
      Cut(s, pos, t, colon);
      Cut(s, pos, colon, colon + 1);
      Cut(s, pos, colon + 1, gap);
    }
  }

  // ---------------------------------------------------------------- what is there is read

  lemma {:induction false} SpaceEndIs(s: string, pos: nat, end: nat)
    requires pos <= end <= |s| && AllSpace(s[pos..end]) && (end < |s| ==> !IsSpace(s[end]))
    ensures SpaceEnd(s, pos) == end
    decreases end - pos
  {
    if pos < end {
      assert s[pos] == s[pos..end][0];
      assert s[pos + 1..end] == s[pos..end][1..];
      SpaceEndIs(s, pos + 1, end);
    }
  }

  lemma ItemIsRead(s: string, pos: nat, item: Item)
    requires pos <= |s| && IsItem(item) && At(s, pos, ItemText(item))
    ensures ItemAt(s, pos) == Some(item) && s[pos] != '"'
  {
    match item
    case Unit(bytes) =>
      UnitWidth(bytes);
      assert s[pos] == s[pos..pos + |bytes|][0];
    case Escape(c) =>
      assert s[pos..pos + 2][0] == s[pos] && s[pos..pos + 2][1] == s[pos + 1];
    case Code(hex) =>
      CodeIsRead(s, pos, hex);
    case Pair(high, low) =>
      Join(s, pos, "\\u" + high + "\\u", low);
      Join(s, pos, "\\u" + high, "\\u");
      assert s[pos + 6..pos + 8][0] == s[pos + 6] && s[pos + 6..pos + 8][1] == s[pos + 7];
      CodeIsRead(s, pos, high);
  }

  lemma CodeIsRead(s: string, pos: nat, hex: string)
    requires pos <= |s| && |hex| == 4 && IsHex(hex) && At(s, pos, "\\u" + hex)
    ensures pos + 6 <= |s| && s[pos] == '\\' && s[pos + 1] == 'u' && HexAt(s, pos + 2) == Some(hex)
  {
    Join(s, pos, "\\u", hex);
    assert s[pos..pos + 2][0] == s[pos] && s[pos..pos + 2][1] == s[pos + 1];
  }

  lemma {:induction false} StringIsRead(s: string, pos: nat, chars: Chars)
    requires pos <= |s| && AreItems(chars) && At(s, pos, CharsText(chars))
    ensures StringAt(s, pos) == Some(CharsEnd(chars, pos + |CharsText(chars)|))
    decreases chars
  {
    hide ItemAt, ItemText, IsItem;
    if chars.Close? {
      assert s[pos..pos + 1][0] == s[pos];
    } else {
      Join(s, pos, ItemText(chars.item), CharsText(chars.rest));
      ItemIsRead(s, pos, chars.item);
      StringIsRead(s, pos + |ItemText(chars.item)|, chars.rest);
    }
  }

  /** Nothing at p can belong to a number that ends there. */
  predicate Boundary(s: string, p: nat) { !DigitAt(s, p) && !IsAt(s, p, '.') && !MarkAt(s, p) }

  lemma ByteAt(s: string, pos: nat, piece: string, i: nat)
    requires At(s, pos, piece) && i < |piece|
    ensures pos + i < |s| && s[pos + i] == piece[i]
  {
    assert s[pos..pos + |piece|][i] == s[pos + i];
  }

  lemma BytesAt(s: string, pos: nat, piece: string)
    requires At(s, pos, piece)
    ensures forall i :: 0 <= i < |piece| ==> s[pos + i] == piece[i]
  {
    forall i | 0 <= i < |piece| ensures s[pos + i] == piece[i] {
      ByteAt(s, pos, piece, i);
    }
  }

  lemma DigitsThere(s: string, pos: nat, text: string, a: nat, b: nat)
    requires At(s, pos, text) && a <= b <= |text| && JsonNumber.DigitsIn(text, a, b)
    requires if b < |text| then !IsDigit(text[b]) else !DigitAt(s, pos + b)
    ensures JsonNumber.DigitsEnd(s, pos + a) == pos + b
  {
    BytesAt(s, pos, text);
    forall i | pos + a <= i < pos + b ensures IsDigit(s[i]) {
      assert s[i] == text[i - pos];
    }
    JsonNumber.DigitsEndIs(s, pos + a, pos + b);
  }

  lemma NumberIsRead(s: string, pos: nat, text: string, l: JsonNumber.Layout)
    requires JsonNumber.Matches(text, l) && At(s, pos, text) && Boundary(s, pos + |text|)
    ensures NumberEnd(s, pos) == Some(pos + |text|)
  {
    hide At, Boundary, ExponentEnd, ExpStart, JsonNumber.DigitsIn, JsonNumber.ExponentPart;
    BytesAt(s, pos, text);
    InText(s, pos, text);
    IntegerIsRead(s, pos, text, l);
    FractionIsRead(s, pos, text, l);
    ExponentIsRead(s, pos, text, l);
    assert s[pos] == text[0];
  }

  lemma IntegerIsRead(s: string, pos: nat, text: string, l: JsonNumber.Layout)
    requires JsonNumber.Matches(text, l) && At(s, pos, text) && Boundary(s, pos + |text|)
    ensures DigitAt(s, pos + l.start) && (s[pos] == '-' <==> l.start == 1)
    ensures s[pos + l.start] == '0' ==> l.intEnd == l.start + 1
    ensures s[pos + l.start] != '0' ==> JsonNumber.DigitsEnd(s, pos + l.start) == pos + l.intEnd
  {
    BytesAt(s, pos, text);
    assert s[pos + l.start] == text[l.start] && IsDigit(text[l.start]);
    if text[l.start] != '0' {
      AfterInteger(text, l);
      DigitsThere(s, pos, text, l.start, l.intEnd);
    }
  }

  lemma AfterInteger(text: string, l: JsonNumber.Layout)
    requires JsonNumber.Matches(text, l)
    ensures l.intEnd < |text| ==> !IsDigit(text[l.intEnd]) && (text[l.intEnd] == '.' <==> l.fracEnd > l.intEnd)
    ensures l.fracEnd < |text| ==> !IsDigit(text[l.fracEnd]) && JsonNumber.IsMark(text[l.fracEnd])
  {
  }

  lemma FractionIsRead(s: string, pos: nat, text: string, l: JsonNumber.Layout)
    requires JsonNumber.Matches(text, l) && At(s, pos, text) && Boundary(s, pos + |text|)
    ensures pos + l.intEnd <= |s|
    ensures IsAt(s, pos + l.intEnd, '.') <==> l.fracEnd > l.intEnd
    ensures l.fracEnd > l.intEnd
            ==> DigitAt(s, pos + l.intEnd + 1) && JsonNumber.DigitsEnd(s, pos + l.intEnd + 1) == pos + l.fracEnd
  {
    BytesAt(s, pos, text);
    AfterInteger(text, l);
    if l.fracEnd > l.intEnd {
      assert s[pos + l.intEnd + 1] == text[l.intEnd + 1];
      DigitsThere(s, pos, text, l.intEnd + 1, l.fracEnd);
    }
  }

  lemma InText(s: string, pos: nat, text: string)
    requires At(s, pos, text)
    ensures pos + |text| <= |s|
  {
  }

  lemma ExponentIsRead(s: string, pos: nat, text: string, l: JsonNumber.Layout)
    requires JsonNumber.Matches(text, l) && At(s, pos, text) && Boundary(s, pos + |text|)
    ensures pos + l.fracEnd <= |s| && ExponentEnd(s, pos + l.fracEnd) == Some(pos + |text|)
  {
    BytesAt(s, pos, text);
    if l.expStart > l.fracEnd {
      DigitsThere(s, pos, text, l.expStart, |text|);
      assert s[pos + l.fracEnd] == text[l.fracEnd] && s[pos + l.expStart] == text[l.expStart];
      assert s[pos + l.fracEnd + 1] == text[l.fracEnd + 1];
    }
  }

  lemma SpaceIsRead(s: string, pos: nat, space: string)
    requires At(s, pos, space) && AllSpace(space)
    requires pos + |space| < |s| ==> !IsSpace(s[pos + |space|])
    ensures SpaceEnd(s, pos) == pos + |space|
  {
    SpaceEndIs(s, pos, pos + |space|);
  }

  /** No value starts with white space or a closing bracket, and its first byte tells what it is. */
  predicate StartsAs(v: Value, c: char) {
    match v
    case Number(_) => c == '-' || IsDigit(c)
    case Text(_) => c == '"'
    case Null => c == 'n'
    case Bool(b) => c == if b then 't' else 'f'
    case Empty(braces, _) => c == Open(braces)[0]
    case Nest(braces, _) => c == Open(braces)[0]
  }

  lemma FirstByte(v: Value)
    requires WellFormed(v)
    ensures |Print(v)| > 0 && StartsAs(v, Print(v)[0])
  {
    if v.Number? {
      var l :| JsonNumber.Matches(v.text, l);
    }
  }

  lemma {:induction false} ValueIsRead(s: string, pos: nat, depth: int, v: Value)
    requires pos <= |s| && WellFormed(v) && At(s, pos, Print(v)) && depth + Nesting(v) <= MAX_DEPTH
    requires v.Number? ==> Boundary(s, pos + |Print(v)|)
    ensures ParseValue(s, pos, depth) == Some(Parsed(v, pos + |Print(v)|))
    decreases v, 0
  {
    hide ParseContainer, ParseScalar, Print, Nesting, WellFormed;
    FirstByte(v);
    ByteAt(s, pos, Print(v), 0);
    if v.Empty? || v.Nest? {
      ContainerIsRead(s, pos, depth, v);
    } else {
      ScalarIsRead(s, pos, v);
    }
  }

  lemma ScalarIsRead(s: string, pos: nat, v: Value)
    requires pos < |s| && WellFormed(v) && At(s, pos, Print(v)) && !v.Empty? && !v.Nest? && StartsAs(v, s[pos])
    requires v.Number? ==> Boundary(s, pos + |Print(v)|)
    ensures ParseScalar(s, pos) == Some(Parsed(v, pos + |Print(v)|))
  {
    hide StringAt, NumberEnd, At, Literal, CharsText, AreItems, Boundary, JsonNumber.Matches;
    match v
    case Number(text) =>
      var l :| JsonNumber.Matches(text, l);
      NumberIsRead(s, pos, text, l);
      AtSlice(s, pos, text);
    case Text(chars) =>
      Join(s, pos, "\"", CharsText(chars));
      StringIsRead(s, pos + 1, chars);
    case _ =>
  }

  lemma {:induction false} ContainerIsRead(s: string, pos: nat, depth: int, v: Value)
    requires pos < |s| && WellFormed(v) && At(s, pos, Print(v)) && depth + Nesting(v) <= MAX_DEPTH
    requires (v.Empty? || v.Nest?) && s[pos] == Open(v.braces)[0]
    ensures ParseContainer(s, pos, depth) == Some(Parsed(v, pos + |Print(v)|))
    decreases v, -1
  {
    hide ParseMembers, PrintMembers, WellFormedMembers, NestingOf;
    var open := Open(v.braces);
    if v.Empty? {
      EmptyIsRead(s, pos, v.space, v.braces);
    } else {
      Join(s, pos, open, PrintMembers(v.members, v.braces));
      MembersStart(s, pos + 1, v.members, v.braces);
      MembersAreRead(s, pos + 1, depth + 1, v.members, v.braces);
    }
  }

  lemma EmptyIsRead(s: string, pos: nat, space: string, braces: bool)
    requires AllSpace(space) && At(s, pos, Open(braces) + space + Closing(braces))
    ensures SpaceEnd(s, pos + 1) == pos + 1 + |space| && IsAt(s, pos + 1 + |space|, Closing(braces)[0])
    ensures s[pos + 1..pos + 1 + |space|] == space
  {
    Join(s, pos, Open(braces) + space, Closing(braces));
    Join(s, pos, Open(braces), space);
    ByteAt(s, pos + 1 + |space|, Closing(braces), 0);
    SpaceIsRead(s, pos + 1, space);
  }

  /** The first member is not mistaken for the closing bracket. */
  lemma MembersStart(s: string, pos: nat, ms: Members, braces: bool)
    requires pos <= |s| && WellFormedMembers(ms, braces) && At(s, pos, PrintMembers(ms, braces))
    ensures !IsAt(s, SpaceEnd(s, pos), Closing(braces)[0])
  {
    hide PrintMember, WellFormedMember;
    Join(s, pos, PrintMember(ms.member), PrintMembers(ms, braces)[|PrintMember(ms.member)|..]);
    assert PrintMembers(ms, braces) == PrintMember(ms.member) + PrintMembers(ms, braces)[|PrintMember(ms.member)|..];
    MemberStart(s, pos, ms.member, braces);
  }

  lemma MemberStart(s: string, pos: nat, m: Member, braces: bool)
    requires pos <= |s| && WellFormedMember(m, braces) && At(s, pos, PrintMember(m))
    ensures SpaceEnd(s, pos) == pos + |m.before| < |s|
    ensures !IsAt(s, pos + |m.before|, Closing(braces)[0])
  {
    hide Print, WellFormed;
    var tail := PrintKey(m.key) + Print(m.value) + m.after;
    assert PrintMember(m) == m.before + tail;
    Join(s, pos, m.before, tail);
    FirstByte(m.value);
    ByteAt(s, pos + |m.before|, tail, 0);
    SpaceIsRead(s, pos, m.before);
  }

  lemma {:induction false} MembersAreRead(s: string, pos: nat, depth: int, ms: Members, braces: bool)
    requires pos <= |s| && WellFormedMembers(ms, braces) && At(s, pos, PrintMembers(ms, braces))
    requires depth + NestingOf(ms) <= MAX_DEPTH
    ensures ParseMembers(s, pos, depth, braces) == Some(ParsedMembers(ms, pos + |PrintMembers(ms, braces)|))
    decreases ms, 1
  {
    hide ParseMember, PrintMember, WellFormedMember, Nesting, At;
    var text := PrintMember(ms.member);
    var end := pos + |text|;
    AtSlice(s, pos, PrintMembers(ms, braces));
    match ms
    case One(m) =>
      Join(s, pos, text, Closing(braces));
      ByteAt(s, end, Closing(braces), 0);
      MemberIsRead(s, pos, depth, m, braces);
    case More(m, rest) =>
      Join(s, pos, text + ",", PrintMembers(rest, braces));
      Join(s, pos, text, ",");
      ByteAt(s, end, ",", 0);
      MemberIsRead(s, pos, depth, m, braces);
      MembersAreRead(s, end + 1, depth, rest, braces);
  }

  /** A byte that can follow a member: not white space, and no part of a number. */
  predicate Ends(s: string, p: nat) { p < |s| && (s[p] == ',' || s[p] == ']' || s[p] == '}') }

  lemma {:induction false} MemberIsRead(s: string, pos: nat, depth: int, m: Member, braces: bool)
    requires pos <= |s| && WellFormedMember(m, braces) && At(s, pos, PrintMember(m)) && Ends(s, pos + |PrintMember(m)|)
    requires depth + Nesting(m.value) <= MAX_DEPTH
    ensures ParseMember(s, pos, depth, braces) == Some(ParsedMember(m, pos + |PrintMember(m)|))
    decreases m, 0
  {
    hide ParseKey, ParseValue, PrintKey, Print, SpaceEnd, WellFormed, WellFormedKey, At, AllSpace;
    MemberStart(s, pos, m, braces);
    MemberParts(s, pos, m);
    var q := pos + |m.before|;
    var k := q + |PrintKey(m.key)|;
    var e := k + |Print(m.value)|;
    AtSlice(s, pos, m.before);
    AtSlice(s, e, m.after);
    EndsIsNoSpace(s, e + |m.after|);
    SpaceIsRead(s, e, m.after);
    ValueStart(s, k, m.value);
    KeyIsRead(s, q, m.key, braces);
    AfterIsBoundary(s, e, m.after);
    ValueIsRead(s, k, depth, m.value);
  }

  lemma EndsIsNoSpace(s: string, p: nat)
    requires Ends(s, p)
    ensures p < |s| && !IsSpace(s[p])
  {
  }

  lemma MemberParts(s: string, pos: nat, m: Member)
    requires At(s, pos, PrintMember(m))
    ensures var k := pos + |m.before| + |PrintKey(m.key)|;
      && At(s, pos, m.before) && At(s, pos + |m.before|, PrintKey(m.key)) && At(s, k, Print(m.value))
      && At(s, k + |Print(m.value)|, m.after)
    ensures |PrintMember(m)| == |m.before| + |PrintKey(m.key)| + |Print(m.value)| + |m.after|
  {
    hide PrintKey, Print, At;
    Join(s, pos, m.before + PrintKey(m.key) + Print(m.value), m.after);
    Join(s, pos, m.before + PrintKey(m.key), Print(m.value));
    Join(s, pos, m.before, PrintKey(m.key));
  }

  lemma AfterIsBoundary(s: string, e: nat, after: string)
    requires At(s, e, after) && AllSpace(after) && Ends(s, e + |after|)
    ensures Boundary(s, e)
  {
    if |after| > 0 {
      ByteAt(s, e, after, 0);
    }
  }

  lemma ValueStart(s: string, pos: nat, v: Value)
    requires WellFormed(v) && At(s, pos, Print(v))
    ensures pos < |s| && !IsSpace(s[pos])
  {
    FirstByte(v);
    ByteAt(s, pos, Print(v), 0);
  }

  lemma KeyIsRead(s: string, pos: nat, key: Key, braces: bool)
    requires At(s, pos, PrintKey(key)) && key.Named? == braces && (braces ==> WellFormedKey(key))
    requires pos + |PrintKey(key)| < |s| && !IsSpace(s[pos + |PrintKey(key)|])
    ensures ParseKey(s, pos, braces) == Some(ParsedKey(key, pos + |PrintKey(key)|))
  {
    hide StringAt, CharsText, AreItems, AllSpace, At, SpaceEnd, PrintKey;
    KeyLength(key);
    if braces {
      var t := pos + 1 + |CharsText(key.chars)|;
      var colon := t + |key.colon|;
      KeyParts(s, pos, key);
      AtSlice(s, t, key.colon);
      AtSlice(s, colon + 1, key.gap);
      StringIsRead(s, pos + 1, key.chars);
      SpaceIsRead(s, t, key.colon);
      SpaceIsRead(s, colon + 1, key.gap);
    }
  }

  lemma KeyLength(key: Key)
    ensures |PrintKey(key)| == if key.NoKey? then 0 else 1 + |CharsText(key.chars)| + |key.colon| + 1 + |key.gap|
  {
  }

  lemma KeyParts(s: string, pos: nat, key: Key)
    requires key.Named? && At(s, pos, PrintKey(key))
    ensures var t := pos + 1 + |CharsText(key.chars)|;
      && At(s, pos + 1, CharsText(key.chars)) && At(s, t, key.colon) && At(s, t + |key.colon| + 1, key.gap)
      && IsAt(s, pos, '"') && IsAt(s, t + |key.colon|, ':')
  {
    hide CharsText, At;
    var text := CharsText(key.chars);
    Join(s, pos, "\"" + text + key.colon + ":", key.gap);
    Join(s, pos, "\"" + text + key.colon, ":");
    Join(s, pos, "\"" + text, key.colon);
    Join(s, pos, "\"", text);
    ByteAt(s, pos, "\"", 0);
    ByteAt(s, pos + 1 + |text| + |key.colon|, ":", 0);
  }

  // ---------------------------------------------------------------- whole texts

  /** Reading exactly the printed syntax gives it back; reading anything gives the syntax that prints as it. */
  lemma ReadingInvertsPrinting(v: Value, depth: int)
    requires WellFormed(v) && depth + Nesting(v) <= MAX_DEPTH
    ensures ParseValue(Print(v), 0, depth) == Some(Parsed(v, |Print(v)|))
  {
    assert Print(v)[0..|Print(v)|] == Print(v);
    ValueIsRead(Print(v), 0, depth, v);
  }

  /** The texts that are read to their end are exactly the printed values of the allowed depth, and no text is two values. */
  lemma ReadExactlyWhatIsPrinted(s: string, depth: int, v: Value)
    requires depth <= MAX_DEPTH
    ensures ParseValue(s, 0, depth) == Some(Parsed(v, |s|))
       <==> WellFormed(v) && Print(v) == s && depth + Nesting(v) <= MAX_DEPTH
  {
    if ParseValue(s, 0, depth) == Some(Parsed(v, |s|)) {
      ParsedIsThere(s, 0, depth);
      assert s[0..|s|] == s;
    }
    if WellFormed(v) && Print(v) == s && depth + Nesting(v) <= MAX_DEPTH {
      ReadingInvertsPrinting(v, depth);
    }
  }

  lemma {:induction false} StripKeepsNesting(v: Value)
    ensures Nesting(Strip(v)) == Nesting(v)
  {
    if v.Nest? {
      StripKeepsNestingOf(v.members);
    }
  }

  lemma {:induction false} StripKeepsNestingOf(ms: Members)
    ensures NestingOf(StripMembers(ms)) == NestingOf(ms)
  {
    StripKeepsNesting(ms.member.value);
    if ms.More? {
      StripKeepsNestingOf(ms.rest);
    }
  }

  /** Compacting is idempotent: the compact text reads back as the stripped value, which has nothing left to strip. */
  lemma CompactTextReadsBack(v: Value, depth: int)
    requires WellFormed(v) && depth + Nesting(v) <= MAX_DEPTH
    ensures ParseValue(Print(Strip(v)), 0, depth) == Some(Parsed(Strip(v), |Print(Strip(v))|))
    ensures Strip(Strip(v)) == Strip(v)
  {
    StripKeepsWellFormed(v);
    StripKeepsNesting(v);
    StripTwice(v);
    ReadingInvertsPrinting(Strip(v), depth);
  }

  function OneNumber(text: string): Value { Nest(false, One(Member("", NoKey, Number(text), ""))) }

  /** At the depth limit the reader, like the skipper, takes an array that the scanner refuses. */
  lemma AtTheLimit()
    ensures Print(OneNumber("0")) == "[0]" && !Shallow(OneNumber("0"), MAX_DEPTH - 1)
    ensures ParseValue("[0]", 0, MAX_DEPTH - 1) == Some(Parsed(OneNumber("0"), 3))
  {
    hide ParseValue, WellFormed, Nesting, Print, Shallow, OneNumber;
    OneNumberPrints("0");
    ZeroIsNumber();
    OneNumberIsFlat("0");
    assert "[" + "0" + "]" == "[0]";
    ReadingInvertsPrinting(OneNumber("0"), MAX_DEPTH - 1);
  }

  lemma OneNumberPrints(text: string)
    ensures Print(OneNumber(text)) == "[" + text + "]"
  {
    var m := Member("", NoKey, Number(text), "");
    assert PrintMember(m) == text;
  }

  lemma OneNumberIsFlat(text: string)
    requires JsonNumber.IsJsonNumber(text)
    ensures WellFormed(OneNumber(text)) && Nesting(OneNumber(text)) == 1 && !Shallow(OneNumber(text), MAX_DEPTH - 1)
  {
    hide JsonNumber.IsJsonNumber;
    var m := Member("", NoKey, Number(text), "");
    assert AllSpace("");
    assert WellFormed(Number(text));
    assert WellFormedMember(m, false);
    assert One(m).member == m && !One(m).More?;
    assert WellFormedMembers(One(m), false);
    assert NestingOf(One(m)) == 0;
  }

  lemma ZeroIsNumber()
    ensures JsonNumber.IsJsonNumber("0")
  {
    var l := JsonNumber.Layout(0, 1, 1, 1);
    assert JsonNumber.IntegerPart("0", l) && JsonNumber.FractionPart("0", l) && JsonNumber.ExponentPart("0", l);
    assert JsonNumber.Matches("0", l);
  }
}
