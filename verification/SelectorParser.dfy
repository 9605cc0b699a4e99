/** The parser of selector JSON (src/lql_selector.c): a cursor over the text that feeds a stack of frames. */
module SelectorParser {
  import opened Wrappers
  import opened Utf8
  import opened Digits
  import opened JsonSyntax
  import opened JsonParse
  import opened JsonStrings
  import JsonNumber
  import JsonRoundTrip
  import Reader
  import S = Selectors

  // ---------------------------------------------------------------- what a scan should come to

  /** A frame after a scan, and the position after it. */
  datatype End = End(frame: S.Frame, next: nat)

  /** The value that starts at the position, taken by the frame. */
  ghost function ValueEnd(s: string, pos: nat, depth: int, f: S.Frame): (r: Option<End>)
    requires pos <= |s| && depth <= 0
    ensures r.Some? ==> pos < r.value.next <= |s|
  {
    var p := ParseValue(s, pos, depth);
    if p.None? then None else
    JsonRoundTrip.ParsedIsThere(s, pos, depth);
    var g := S.Take(f, p.value.value);
    if g.None? then None else Some(End(g.value, p.value.next))
  }

  ghost function MemberEnd(s: string, pos: nat, depth: int, braces: bool, f: S.Frame): (r: Option<End>)
    requires pos <= |s| && depth <= 0
    ensures r.Some? ==> pos < r.value.next <= |s|
  {
    var p := ParseMember(s, pos, depth, braces);
    if p.None? then None else
    JsonRoundTrip.MemberIsThere(s, pos, depth, braces);
    var g := S.TakeMember(f, p.value.member, braces);
    if g.None? then None else Some(End(g.value, p.value.next))
  }

  ghost function MembersEnd(s: string, pos: nat, depth: int, braces: bool, f: S.Frame): (r: Option<End>)
    requires pos <= |s| && depth <= 0
    ensures r.Some? ==> pos < r.value.next <= |s|
  {
    var p := ParseMembers(s, pos, depth, braces);
    if p.None? then None else
    JsonRoundTrip.MembersAreThere(s, pos, depth, braces);
    var g := S.TakeMembers(f, p.value.members, braces);
    if g.None? then None else Some(End(g.value, p.value.next))
  }

  lemma MembersUnfold(s: string, pos: nat, depth: int, braces: bool, f: S.Frame)
    requires pos <= |s| && depth <= 0
    ensures var one := MemberEnd(s, pos, depth, braces, f);
            MembersEnd(s, pos, depth, braces, f)
              == if one.None? then None
                 else if IsAt(s, one.value.next, Closing(braces)[0]) then Some(End(one.value.frame, one.value.next + 1))
                 else if !IsAt(s, one.value.next, ',') then None
                 else MembersEnd(s, one.value.next + 1, depth, braces, one.value.frame)
  {
    hide ParseMember, ParseMembers, S.TakeMember, S.TakeMembers, WellFormedMember, WellFormedMembers, MembersEnd, MemberEnd;
    var m := ParseMember(s, pos, depth, braces);
    ParsedMembersAre(s, pos, depth, braces);
    EndsAre(s, pos, depth, braces, f);
    if m.Some? {
      if IsAt(s, m.value.next, Closing(braces)[0]) {
        LastIsTaken(f, m.value.member, braces);
      } else if IsAt(s, m.value.next, ',') {
        var rest := ParseMembers(s, m.value.next + 1, depth, braces);
        if rest.Some? {
          JsonRoundTrip.MembersAreThere(s, m.value.next + 1, depth, braces);
          FirstIsTaken(f, m.value.member, rest.value.members, braces);
        }
        if S.TakeMember(f, m.value.member, braces).Some? {
          EndsAre(s, m.value.next + 1, depth, braces, S.TakeMember(f, m.value.member, braces).value);
        }
      }
    }
  }

  lemma EndsAre(s: string, pos: nat, depth: int, braces: bool, f: S.Frame)
    requires pos <= |s| && depth <= 0
    ensures var m := ParseMember(s, pos, depth, braces);
            m.Some? ==> m.value.next <= |s| && WellFormedMember(m.value.member, braces)
    ensures var m := ParseMember(s, pos, depth, braces);
            MemberEnd(s, pos, depth, braces, f) == if m.None? || S.TakeMember(f, m.value.member, braces).None? then None
                                                   else Some(End(S.TakeMember(f, m.value.member, braces).value, m.value.next))
    ensures var ms := ParseMembers(s, pos, depth, braces);
            ms.Some? ==> WellFormedMembers(ms.value.members, braces)
    ensures var ms := ParseMembers(s, pos, depth, braces);
            MembersEnd(s, pos, depth, braces, f) == if ms.None? || S.TakeMembers(f, ms.value.members, braces).None? then None
                                                    else Some(End(S.TakeMembers(f, ms.value.members, braces).value, ms.value.next))
  {
    hide ParseMember, ParseMembers, S.TakeMember, S.TakeMembers, WellFormedMember, WellFormedMembers;
    if ParseMember(s, pos, depth, braces).Some? {
      JsonRoundTrip.MemberIsThere(s, pos, depth, braces);
    }
    if ParseMembers(s, pos, depth, braces).Some? {
      JsonRoundTrip.MembersAreThere(s, pos, depth, braces);
    }
  }

  lemma ParsedMembersAre(s: string, pos: nat, depth: int, braces: bool)
    requires pos <= |s|
    ensures var m := ParseMember(s, pos, depth, braces);
            m.Some? ==> m.value.next <= |s|
    ensures var m := ParseMember(s, pos, depth, braces);
            ParseMembers(s, pos, depth, braces)
            == if m.None? then None
               else if IsAt(s, m.value.next, Closing(braces)[0]) then Some(ParsedMembers(One(m.value.member), m.value.next + 1))
               else if !IsAt(s, m.value.next, ',') then None
               else var rest := ParseMembers(s, m.value.next + 1, depth, braces);
                    if rest.None? then None else Some(ParsedMembers(More(m.value.member, rest.value.members), rest.value.next))
  {
    hide ParseMember;
  }

  lemma LastIsTaken(f: S.Frame, m: Member, braces: bool)
    requires WellFormedMember(m, braces)
    ensures WellFormedMembers(One(m), braces) && S.TakeMembers(f, One(m), braces) == S.TakeMember(f, m, braces)
  {
    hide S.TakeMember, WellFormedMember;
  }

  lemma FirstIsTaken(f: S.Frame, m: Member, rest: Members, braces: bool)
    requires WellFormedMember(m, braces) && WellFormedMembers(rest, braces)
    ensures WellFormedMembers(More(m, rest), braces)
    ensures var first := S.TakeMember(f, m, braces);
            S.TakeMembers(f, More(m, rest), braces) == if first.None? then None else S.TakeMembers(first.value, rest, braces)
  {
    hide S.TakeMember, WellFormedMember;
  }

  // ---------------------------------------------------------------- the parser

  class Parser {
    const data: string
    var pos: nat
    var text: string
    var frames: seq<S.Frame>

    constructor (data: string)
      ensures this.data == data && pos == 0 && frames == [S.Bottom(None)]
    {
      this.data := data;
      pos, text, frames := 0, "", [S.Bottom(None)];
    }

    ghost predicate Valid()
      reads this
    {
      pos <= |data| && |frames| > 0
    }

    function Top(): S.Frame
      requires |frames| > 0
      reads this
    {
      frames[|frames| - 1]
    }

    /** The stack with another frame on top instead. */
    function Instead(f: S.Frame): seq<S.Frame>
      requires |frames| > 0
      reads this
    {
      frames[..|frames| - 1] + [f]
    }

    /** src/lql_selector.c:2356-2369. */
    method ScanSpace()
      requires pos <= |data|
      modifies this`pos
      ensures pos == SpaceEnd(data, old(pos))
    {
      while pos < |data| && JsonSyntax.IsSpace(data[pos])
        invariant pos <= |data| && SpaceEnd(data, pos) == SpaceEnd(data, old(pos))
      {
        pos := pos + 1;
      }
    }

    /** src/lql_selector.c:2384-2403. */
    method ScanHex() returns (ok: bool, value: int)
      requires pos <= |data|
      modifies this`pos
      ensures pos <= |data| && (ok <==> HexAt(data, old(pos)).Some?)
      ensures ok ==> pos == old(pos) + 4 && value == HexValue(data[old(pos)..pos])
    {
      value := 0;
      if pos + 4 > |data| {
        return false, 0;
      }
      var i := 0;
      while i < 4
        invariant 0 <= i <= 4 && pos + 4 <= |data|
        invariant forall k :: pos <= k < pos + i ==> HexDigit(data[k]) >= 0
        invariant value == if i == 0 then 0 else Reader.HexPrefix(data, pos, i)
      {
        var digit := HexDigit(data[pos + i]);
        if digit < 0 {
          Reader.NotHex(data, pos, i);
          return false, 0;
        }
        value := value * 16 + digit;
        i := i + 1;
      }
      Reader.IsHexAt(data, pos);
      pos := pos + 4;
      ok := true;
    }

    /** One escape, from its backslash on (src/lql_selector.c:2521-2587). */
    method ScanEscape() returns (ok: bool, meaning: string)
      requires pos < |data| && data[pos] == '\\'
      modifies this`pos
      ensures pos <= |data| && (ok <==> ItemAt(data, old(pos)).Some?)
      ensures ok ==> pos == old(pos) + |ItemText(ItemAt(data, old(pos)).value)| && meaning == ItemMeaning(ItemAt(data, old(pos)).value)
    {
      hide HexAt, HexValue, IsHex, Encode, IsUnit;
      ghost var start := pos;
      meaning := "";
      pos := pos + 1;
      if pos >= |data| {
        return false, "";
      }
      var c := data[pos];
      pos := pos + 1;
      if IsSimple(c) {
        return true, [Unescape(c)];
      }
      if c != 'u' {
        return false, "";
      }
      var high, low;
      ok, high := ScanHex();
      HexIsHex(data, start + 2);
      if !ok {
        return;
      }
      if IsHigh(high) {
        HexIsHex(data, start + 8);
        if pos + 6 > |data| || data[pos] != '\\' || data[pos + 1] != 'u' {
          return false, "";
        }
        pos := pos + 2;
        ok, low := ScanHex();
        if !ok || !IsLow(low) {
          return false, "";
        }
        EncodablePair(data[start + 2..start + 6], data[start + 8..start + 12]);
        meaning := Encode(PairValue(high, low));
        return true, meaning;
      }
      if IsLow(high) {
        return false, "";
      }
      EncodableCode(data[start + 2..start + 6]);
      meaning := Encode(high);
      ok := true;
    }

    /** One multi-byte character (src/lql_selector.c:2489-2520). */
    method ScanUnit() returns (ok: bool)
      requires pos < |data| && data[pos] as int >= 0x80
      modifies this`pos
      ensures pos <= |data| && (ok <==> ItemAt(data, old(pos)).Some?)
      ensures ok ==> pos == old(pos) + |ItemText(ItemAt(data, old(pos)).value)|
                     && data[old(pos)..pos] == ItemMeaning(ItemAt(data, old(pos)).value)
    {
      ghost var start := pos;
      var first := data[pos];
      UnitByContinuations(data, start);
      ItemOfUnit(data, start);
      if Width(first) == 0 {
        return false;
      }
      var remaining := Width(first) - 1;
      var min, max := SecondMin(first), SecondMax(first);
      pos := pos + 1;
      while remaining != 0
        invariant 0 <= remaining < Width(first) && pos == start + Width(first) - remaining && pos <= |data|
        invariant forall k: nat :: 1 <= k < Width(first) - remaining ==> Continues(data, start, k)
        invariant if remaining == Width(first) - 1 then min == SecondMin(first) && max == SecondMax(first)
                  else min == 0x80 && max == 0xbf
      {
        ghost var k := Width(first) - remaining;
        if pos >= |data| || (data[pos] as int) < min || data[pos] as int > max {
          assert !Continues(data, start, k);
          return false;
        }
        assert Continues(data, start, k);
        pos := pos + 1;
        remaining := remaining - 1;
        min, max := 0x80, 0xbf;
      }
      ok := true;
    }

    /** The characters of a string up to its closing quote, appended in chunks (src/lql_selector.c:2465-2595). */
    method ScanChars() returns (ok: bool)
      requires pos <= |data|
      modifies this`pos, this`text
      ensures pos <= |data| && (ok <==> StringAt(data, old(pos)).Some?)
      ensures ok ==> pos == StringAt(data, old(pos)).value.next && text == Meaning(StringAt(data, old(pos)).value.chars)
    {
      hide StringAt, ItemAt, ItemText, ItemMeaning, Meaning, AreItems, Decodes;
      ghost var start := pos;
      text := "";
      var chunk := pos;
      DecodesNothing(data, start);
      assert text + data[chunk..pos] == "";
      while pos < |data|
        invariant start <= chunk <= pos <= |data| && Decodes(data, start, pos, text + data[chunk..pos])
        decreases |data| - pos
      {
        var c := data[pos];
        ghost var was := pos;
        if c == '"' {
          DecodesToQuote(data, start, pos, text + data[chunk..pos]);
          text := text + data[chunk..pos];
          pos := pos + 1;
          return true;
        }
        if c as int < 0x20 {
          Reader.ControlIsNoItem(data, pos);
          NoItem(data, pos);
          Reader.NotClosed(data, start, pos, text + data[chunk..pos]);
          return false;
        }
        if c != '\\' {
          if c as int < 0x80 {
            DecodesPlain(data, pos);
            pos := pos + 1;
          } else {
            ok := ScanUnit();
            if !ok {
              NoItem(data, was);
              Reader.NotClosed(data, start, was, text + data[chunk..was]);
              return;
            }
            DecodesItem(data, was);
            Reader.ItemAdvances(data, was);
          }
          Extend(data, text, chunk, was, pos);
          DecodesThen(data, start, was, pos, text + data[chunk..was], data[was..pos]);
        } else {
          text := text + data[chunk..pos];
          var meaning;
          ok, meaning := ScanEscape();
          if !ok {
            NoItem(data, was);
            Reader.NotClosed(data, start, was, text);
            return;
          }
          DecodesItem(data, was);
          Reader.ItemAdvances(data, was);
          DecodesThen(data, start, was, pos, text, meaning);
          text := text + meaning;
          chunk := pos;
          assert text + data[chunk..pos] == text;
        }
      }
      NoItem(data, pos);
      Reader.NotClosed(data, start, pos, text + data[chunk..pos]);
      ok := false;
    }

    method ScanDigits()
      requires pos <= |data|
      modifies this`pos
      ensures pos == JsonNumber.DigitsEnd(data, old(pos))
    {
      while pos < |data| && '0' <= data[pos] <= '9'
        invariant pos <= |data| && JsonNumber.DigitsEnd(data, pos) == JsonNumber.DigitsEnd(data, old(pos))
      {
        pos := pos + 1;
      }
    }

    method ScanInteger() returns (ok: bool)
      requires pos <= |data|
      modifies this`pos
      ensures pos <= |data| && (ok <==> IntegerEnd(data, old(pos)).Some?)
      ensures ok ==> pos == IntegerEnd(data, old(pos)).value
    {
      hide JsonNumber.DigitsEnd;
      if IsAt(data, pos, '-') {
        pos := pos + 1;
      }
      if !DigitAt(data, pos) {
        return false;
      }
      if data[pos] == '0' {
        pos := pos + 1;
      } else {
        ScanDigits();
      }
      ok := true;
    }

    method ScanFraction() returns (ok: bool)
      requires pos <= |data|
      modifies this`pos
      ensures pos <= |data| && (ok <==> FractionEnd(data, old(pos)).Some?)
      ensures ok ==> pos == FractionEnd(data, old(pos)).value
    {
      hide JsonNumber.DigitsEnd;
      ok := true;
      if IsAt(data, pos, '.') {
        pos := pos + 1;
        ok := DigitAt(data, pos);
        if ok {
          ScanDigits();
        }
      }
    }

    method ScanExponent() returns (ok: bool)
      requires pos <= |data|
      modifies this`pos
      ensures pos <= |data| && (ok <==> ExponentEnd(data, old(pos)).Some?)
      ensures ok ==> pos == ExponentEnd(data, old(pos)).value
    {
      hide JsonNumber.DigitsEnd;
      ok := true;
      if MarkAt(data, pos) {
        pos := pos + 1;
        if PlusMinusAt(data, pos) {
          pos := pos + 1;
        }
        ok := DigitAt(data, pos);
        if ok {
          ScanDigits();
        }
      }
    }

    /** src/lql_selector.c:2598-2653. */
    method ScanNumber() returns (ok: bool)
      requires pos <= |data|
      modifies this`pos
      ensures pos <= |data| && (ok <==> NumberEnd(data, old(pos)).Some?)
      ensures ok ==> pos == NumberEnd(data, old(pos)).value
    {
      hide IntegerEnd, FractionEnd, ExponentEnd;
      ok := ScanInteger();
      if ok {
        ok := ScanFraction();
        if ok {
          ok := ScanExponent();
        }
      }
    }

    /** src/lql_selector.c:2667-2677. */
    method ScanLiteral(literal: string) returns (ok: bool)
      requires pos <= |data|
      modifies this`pos
      ensures pos <= |data| && (ok <==> At(data, old(pos), literal)) && (ok ==> pos == old(pos) + |literal|)
    {
      ok := At(data, pos, literal);
      if ok {
        pos := pos + |literal|;
      }
    }

    // ------------------------------------------------------------ events

    /** The top frame after an event, unless the event was refused. */
    method Replace(f: Option<S.Frame>) returns (ok: bool)
      requires |frames| > 0
      modifies this`frames
      ensures ok <==> f.Some?
      ensures frames == if f.Some? then old(Instead(f.value)) else old(frames)
    {
      ok := f.Some?;
      if ok {
        frames := frames[..|frames| - 1] + [f.value];
      }
    }

    method Push(f: Option<S.Frame>) returns (ok: bool)
      modifies this`frames
      ensures ok <==> f.Some?
      ensures frames == if f.Some? then old(frames) + [f.value] else old(frames)
    {
      ok := f.Some?;
      if ok {
        frames := frames + [f.value];
      }
    }

    /** The top frame closes into the one below (src/lql_selector.c:1966-2008 and 2048-2060). */
    method Pop(braces: bool) returns (ok: bool)
      requires |frames| > 1
      modifies this`frames
      ensures var below := old(frames[|frames| - 2]);
              var closed := S.CloseFrame(below, old(Top()), braces);
              (ok <==> closed.Some?) && frames == if ok then old(frames[..|frames| - 2]) + [closed.value] else old(frames)
    {
      var closed := S.CloseFrame(frames[|frames| - 2], Top(), braces);
      ok := closed.Some?;
      if ok {
        frames := frames[..|frames| - 2] + [closed.value];
      }
    }

    // ------------------------------------------------------------ values

    /** A key, its colon and the space around them (src/lql_selector.c:2726-2737). */
    method ScanKey() returns (ok: bool)
      requires Valid()
      modifies this`pos, this`text, this`frames
      ensures Valid() && (ok ==> |frames| == |old(frames)| && frames[..|frames| - 1] == old(frames[..|frames| - 1]))
      ensures var key := ParseKey(data, old(pos), true);
              ok <==> key.Some? && S.OnKey(old(Top()), Meaning(key.value.key.chars)).Some?
      ensures ok ==> var key := ParseKey(data, old(pos), true).value;
                     pos == key.next && Top() == S.OnKey(old(Top()), Meaning(key.key.chars)).value
    {
      hide StringAt, Meaning, AreItems, S.OnKey, SpaceEnd;
      if !IsAt(data, pos, '"') {
        return false;
      }
      pos := pos + 1;
      ok := ScanChars();
      if !ok {
        return;
      }
      ok := Replace(S.OnKey(Top(), text));
      if !ok {
        return;
      }
      ScanSpace();
      if !IsAt(data, pos, ':') {
        return false;
      }
      pos := pos + 1;
      ScanSpace();
    }

    /** A value that is no object and no array (src/lql_selector.c:2769-2793). */
    method ScanScalar() returns (ok: bool)
      requires Valid() && pos < |data| && data[pos] != '{' && data[pos] != '['
      modifies this`pos, this`text, this`frames
      ensures Valid() && (ok ==> |frames| == |old(frames)| && frames[..|frames| - 1] == old(frames[..|frames| - 1]))
      ensures ScalarDone(ParseScalar(data, old(pos)), old(Top()), ok, pos, Top())
    {
      hide StringAt, Meaning, AreItems, S.OnText, S.OnScalar, NumberEnd, At;
      var start := pos;
      ScalarIsWellFormed(data, pos);
      if data[pos] == '"' {
        pos := pos + 1;
        ok := ScanChars();
        if ok {
          ok := Replace(S.OnText(Top(), text));
        }
      } else if data[pos] == 't' {
        ok := ScanLiteral("true");
        if ok {
          ok := Replace(S.OnScalar(Top(), S.Literal(S.Boolean, "true")));
        }
      } else if data[pos] == 'f' {
        ok := ScanLiteral("false");
        if ok {
          ok := Replace(S.OnScalar(Top(), S.Literal(S.Boolean, "false")));
        }
      } else if data[pos] == 'n' {
        ok := ScanLiteral("null");
        if ok {
          ok := Replace(S.OnScalar(Top(), S.Literal(S.Nothing, "null")));
        }
      } else {
        ok := ScanNumber();
        if ok {
          text := data[start..pos];
          ok := Replace(S.OnScalar(Top(), S.Literal(S.Numeral, data[start..pos])));
        }
      }
    }

    /** src/lql_selector.c:2758-2794. */
    method ScanValue(ghost depth: int) returns (ok: bool)
      requires Valid() && depth <= pos - |data|
      modifies this`pos, this`text, this`frames
      ensures Valid() && (ok ==> |frames| == |old(frames)| && frames[..|frames| - 1] == old(frames[..|frames| - 1]))
      ensures Done(ValueEnd(data, SpaceEnd(data, old(pos)), depth, old(Top())), ok, pos, Top())
      decreases |data| - pos, 3
    {
      hide S.Take, ParseScalar, ParseContainer, WellFormed, SpaceEnd;
      ScanSpace();
      if pos >= |data| {
        return false;
      }
      ghost var start, f := pos, Top();
      if data[pos] == '{' || data[pos] == '[' {
        ok := ScanContainer(depth);
      } else {
        ok := ScanScalar();
        ScalarEnds(data, start, depth, f);
      }
    }

    /** The members after an opening bracket, up to the closing one (src/lql_selector.c:2692-2710 and 2725-2755). */
    method ScanMembers(ghost from: nat, ghost depth: int, braces: bool) returns (ok: bool)
      requires Valid() && from <= |data| && pos == SpaceEnd(data, from) && depth <= from - |data|
      modifies this`pos, this`text, this`frames
      ensures Valid() && (ok ==> |frames| == |old(frames)| && frames[..|frames| - 1] == old(frames[..|frames| - 1]))
      ensures var end := MembersEnd(data, from, depth, braces, old(Top()));
              (ok <==> end.Some?) && (ok ==> pos < |data| && end.value == End(Top(), pos + 1))
      decreases |data| - pos, 5
    {
      hide MembersEnd, MemberEnd, SpaceEnd;
      ghost var whole, at := MembersEnd(data, from, depth, braces, Top()), from;
      while true
        invariant pos <= |data| && |frames| == |old(frames)| && |frames| > 0 && frames[..|frames| - 1] == old(frames[..|frames| - 1])
        invariant from <= at <= |data| && pos == SpaceEnd(data, at) && |data| - pos <= |data| - old(pos)
        invariant whole == MembersEnd(data, at, depth, braces, Top())
        decreases |data| - pos
      {
        ghost var was := pos;
        MembersUnfold(data, at, depth, braces, Top());
        ok := ScanMember(at, depth, braces);
        if !ok {
          return;
        }
        if IsAt(data, pos, Closing(braces)[0]) {
          return;
        }
        if !IsAt(data, pos, ',') {
          return false;
        }
        pos := pos + 1;
        at := pos;
        ScanSpace();
      }
    }

    /** One member, with the space after it. */
    method ScanMember(ghost from: nat, ghost depth: int, braces: bool) returns (ok: bool)
      requires Valid() && from <= |data| && pos == SpaceEnd(data, from) && depth <= from - |data|
      modifies this`pos, this`text, this`frames
      ensures Valid() && (ok ==> |frames| == |old(frames)| && frames[..|frames| - 1] == old(frames[..|frames| - 1]))
      ensures Done(MemberEnd(data, from, depth, braces, old(Top())), ok, pos, Top())
      ensures ok ==> pos > old(pos)
      decreases |data| - pos, 4
    {
      hide ParseKey, ValueEnd, MemberEnd, S.OnKey, SpaceEnd;
      ghost var f := Top();
      MemberEnds(data, from, depth, braces, f);
      KeyIsOptional(data, from);
      if braces {
        ok := ScanKey();
        if !ok {
          return;
        }
        ValueStarts(data, from, pos);
      }
      ok := ScanValue(depth);
      if ok {
        ScanSpace();
      }
    }

    /** src/lql_selector.c:2679-2756. */
    method ScanContainer(ghost depth: int) returns (ok: bool)
      requires Valid() && pos < |data| && (data[pos] == '{' || data[pos] == '[') && depth <= pos - |data|
      modifies this`pos, this`text, this`frames
      ensures Valid() && (ok ==> |frames| == |old(frames)| && frames[..|frames| - 1] == old(frames[..|frames| - 1]))
      ensures Done(ValueEnd(data, old(pos), depth, old(Top())), ok, pos, Top())
      decreases |data| - pos, 2
    {
      hide S.OpenObject, S.OpenArray, S.CloseObject, S.CloseArray, SpaceEnd, ValueEnd, MembersEnd;
      var braces := data[pos] == '{';
      ghost var start, f := pos, Top();
      ContainerEnds(data, start, depth, f);
      pos := pos + 1;
      ok := Push(S.OpenFrame(Top(), braces));
      if !ok {
        return;
      }
      ScanSpace();
      if !IsAt(data, pos, Closing(braces)[0]) {
        ok := ScanMembers(start + 1, depth + 1, braces);
        if !ok {
          return;
        }
      }
      pos := pos + 1;
      ok := Pop(braces);
    }

    /** src/lql_selector.c:2796-2876: the selector of the whole text. */
    method Parse() returns (result: Option<S.Selector>)
      requires pos == 0 && frames == [S.Bottom(None)]
      modifies this`pos, this`text, this`frames
      ensures result == S.Read(data)
    {
      hide SpaceEnd, ParseValue, S.Take;
      ScanSpace();
      ghost var start := pos;
      StartOnce(data);
      var ok := ScanValue(-|data|);
      if !ok {
        return None;
      }
      ScanSpace();
      if pos != |data| {
        return None;
      }
      result := if Top().Bottom? then Top().result else None;
    }
  }

  /** The scan came to the end it should come to, or failed as it should. */
  ghost predicate Done(end: Option<End>, ok: bool, pos: nat, g: S.Frame) {
    (ok <==> end.Some?) && (ok ==> end.value == End(g, pos))
  }

  lemma StartOnce(s: string)
    ensures SpaceEnd(s, SpaceEnd(s, 0)) == SpaceEnd(s, 0)
  {
  }

  lemma ScalarEnds(s: string, pos: nat, depth: int, f: S.Frame)
    requires pos < |s| && depth <= 0 && s[pos] != '{' && s[pos] != '['
    ensures var p := ParseScalar(s, pos);
            (p.Some? ==> WellFormed(p.value.value))
            && ValueEnd(s, pos, depth, f) == if p.None? || S.Take(f, p.value.value).None? then None else Some(End(S.Take(f, p.value.value).value, p.value.next))
  {
    hide S.Take, ParseScalar, WellFormed;
    ScalarIsWellFormed(s, pos);
  }

  lemma ContainerEnds(s: string, pos: nat, depth: int, f: S.Frame)
    requires pos < |s| && (s[pos] == '{' || s[pos] == '[') && depth <= pos - |s|
    ensures var braces := s[pos] == '{';
            var inner := S.OpenFrame(f, braces);
            var after := SpaceEnd(s, pos + 1);
            var closing := IsAt(s, after, Closing(braces)[0]);
            var filled := if inner.None? then None else if closing then Some(End(inner.value, after + 1)) else MembersEnd(s, pos + 1, depth + 1, braces, inner.value);
            var closed := if filled.None? then None else S.CloseFrame(f, filled.value.frame, braces);
            ValueEnd(s, pos, depth, f) == if closed.None? then None else Some(End(closed.value, filled.value.next))
  {
    hide S.OpenFrame, S.CloseFrame, S.TakeMembers, ParseMembers, WellFormedMembers, SpaceEnd;
    var braces := s[pos] == '{';
    if ParseContainer(s, pos, depth).Some? {
      JsonRoundTrip.ParsedIsThere(s, pos, depth);
      if !IsAt(s, SpaceEnd(s, pos + 1), Closing(braces)[0]) {
        JsonRoundTrip.MembersAreThere(s, pos + 1, depth + 1, braces);
      }
    }
  }

  /** The frame once the key at the position, if the braces ask for one, is taken. */
  ghost function KeyTaken(s: string, pos: nat, braces: bool, f: S.Frame): (r: Option<S.Frame>)
    requires pos <= |s|
    ensures r.Some? ==> ParseKey(s, pos, braces).Some?
  {
    var key := ParseKey(s, pos, braces);
    if key.None? then None else if !braces then Some(f) else S.OnKey(f, Meaning(key.value.key.chars))
  }

  lemma ValueStarts(s: string, from: nat, pos: nat)
    requires from <= |s| && ParseKey(s, SpaceEnd(s, from), true).Some? && pos == ParseKey(s, SpaceEnd(s, from), true).value.next
    ensures SpaceEnd(s, pos) == pos
  {
  }

  lemma KeyIsOptional(s: string, from: nat)
    requires from <= |s|
    ensures var pos := SpaceEnd(s, from);
            ParseKey(s, pos, false) == Some(ParsedKey(NoKey, pos)) && SpaceEnd(s, pos) == pos
  {
  }

  lemma MemberEnds(s: string, from: nat, depth: int, braces: bool, f: S.Frame)
    requires from <= |s| && depth <= 0
    ensures var key := ParseKey(s, SpaceEnd(s, from), braces);
            var keyed := KeyTaken(s, SpaceEnd(s, from), braces, f);
            var end := if keyed.None? then None else ValueEnd(s, key.value.next, depth, keyed.value);
            MemberEnd(s, from, depth, braces, f) == if end.None? then None else Some(End(end.value.frame, SpaceEnd(s, end.value.next)))
  {
    hide S.Take, S.OnKey, S.TakeMember, ParseValue, ParseKey, WellFormed, WellFormedKey, Meaning, SpaceEnd, AreItems;
    var key := ParseKey(s, SpaceEnd(s, from), braces);
    ParsedMemberIs(s, from, depth, braces);
    if key.Some? {
      JsonRoundTrip.KeyIsThere(s, SpaceEnd(s, from), braces);
      var v := ParseValue(s, key.value.next, depth);
      if v.Some? {
        JsonRoundTrip.ParsedIsThere(s, key.value.next, depth);
        JsonRoundTrip.MemberIsThere(s, from, depth, braces);
        MemberIsTaken(f, ParseMember(s, from, depth, braces).value.member, braces);
      }
    }
  }

  lemma ParsedMemberIs(s: string, from: nat, depth: int, braces: bool)
    requires from <= |s|
    ensures var key := ParseKey(s, SpaceEnd(s, from), braces);
            var v := if key.None? then None else ParseValue(s, key.value.next, depth);
            if v.None? then ParseMember(s, from, depth, braces).None?
            else var m := ParseMember(s, from, depth, braces);
                 m.Some? && m.value.member.key == key.value.key && m.value.member.value == v.value.value && m.value.next == SpaceEnd(s, v.value.next)
  {
    hide ParseKey, ParseValue, SpaceEnd;
  }

  lemma MemberIsTaken(f: S.Frame, m: Member, braces: bool)
    requires WellFormedMember(m, braces)
    ensures WellFormed(m.value) && (braces ==> m.key.Named? && AreItems(m.key.chars)) && (!braces ==> m.key.NoKey?)
    ensures var keyed := if braces then S.OnKey(f, Meaning(m.key.chars)) else Some(f);
            S.TakeMember(f, m, braces) == if keyed.None? then None else S.Take(keyed.value, m.value)
  {
    hide S.Take, S.OnKey, WellFormed, Meaning, AreItems;
  }

  ghost predicate ScalarDone(p: Option<Parsed>, f: S.Frame, ok: bool, pos: nat, g: S.Frame) {
    && (ok ==> p.Some? && WellFormed(p.value.value) && pos == p.value.next && S.Take(f, p.value.value) == Some(g))
    && (!ok ==> p.None? || !WellFormed(p.value.value) || S.Take(f, p.value.value).None?)
  }

  lemma ScalarIsWellFormed(s: string, pos: nat)
    requires pos < |s|
    ensures ParseScalar(s, pos).Some? ==> WellFormed(ParseScalar(s, pos).value.value)
  {
    hide ParseScalar, WellFormed;
    if ParseScalar(s, pos).Some? {
      JsonRoundTrip.ScalarIsThere(s, pos);
    }
  }

  lemma Extend(s: string, text: string, chunk: nat, was: nat, now: nat)
    requires chunk <= was <= now <= |s|
    ensures text + s[chunk..was] + s[was..now] == text + s[chunk..now]
    ensures now == was + 1 ==> s[was..now] == [s[was]]
  {
  }

  lemma HexIsHex(s: string, pos: nat)
    ensures HexAt(s, pos).Some? ==> pos + 4 <= |s| && HexAt(s, pos).value == s[pos..pos + 4] && IsHex(s[pos..pos + 4])
  {
  }

  lemma EncodablePair(high: string, low: string)
    requires IsHex(high) && IsHex(low) && IsHigh(HexValue(high)) && IsLow(HexValue(low))
    ensures IsScalar(PairValue(HexValue(high), HexValue(low)))
  {
  }

  lemma EncodableCode(hex: string)
    requires IsHex(hex) && !IsHigh(HexValue(hex)) && !IsLow(HexValue(hex))
    ensures IsScalar(HexValue(hex))
  {
    HexBounds(hex);
  }
}
