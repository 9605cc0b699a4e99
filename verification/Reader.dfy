/** The buffered input of src/lql_json_scan.c and the skipper, which only validates (lines 3113-3513 and 4593-4776). */
module Reader {
  import opened Wrappers
  import opened Utf8
  import opened Digits
  import opened JsonSyntax
  import opened JsonParse
  import opened JsonStrings
  import JsonNumber

  const READ_BUFFER_SIZE := 16384

  class Input {
    /** Everything the reader callback delivers; the buffer holds the part up to limit. */
    const bytes: string
    var offset: nat
    var limit: nat
    var depth: nat
    /** compact_range_ok: no white space was skipped inside the record so far. */
    var compact: bool

    predicate Valid()
      reads this
    {
      offset <= limit <= |bytes| && depth <= MAX_DEPTH
    }

    constructor (bytes: string)
      ensures Valid() && this.bytes == bytes && offset == 0 && depth == 0 && compact
    {
      this.bytes := bytes;
      offset, limit, depth, compact := 0, 0, 0, true;
    }

    /** src/lql_json_scan.c:3124-3162: any amount up to the buffer's size, and nothing only at the end of input. */
    method Refill()
      requires Valid()
      modifies this`limit
      ensures Valid() && (offset < limit || offset == |bytes|)
    {
      if offset < limit || limit == |bytes| {
        return;
      }
      var amount: nat :| 1 <= amount <= READ_BUFFER_SIZE && amount <= |bytes| - limit;
      limit := limit + amount;
    }

    method Peek() returns (c: Option<char>)
      requires Valid()
      modifies this`limit
      ensures Valid() && c == (if offset < |bytes| then Some(bytes[offset]) else None)
      ensures c.Some? ==> offset < limit
    {
      Refill();
      c := if offset == limit then None else Some(bytes[offset]);
    }

    method Take() returns (c: Option<char>)
      requires Valid()
      modifies this`limit, this`offset
      ensures Valid() && c == (if old(offset) < |bytes| then Some(bytes[old(offset)]) else None)
      ensures offset == if c.Some? then old(offset) + 1 else old(offset)
    {
      c := Peek();
      if c.Some? {
        offset := offset + 1;
      }
    }

    method TakeExpected(expected: char) returns (ok: bool)
      requires Valid()
      modifies this`limit, this`offset
      ensures Valid() && ok == IsAt(bytes, old(offset), expected)
      ensures ok ==> offset == old(offset) + 1
    {
      var c := Take();
      ok := c == Some(expected);
    }

    /** src/lql_json_scan.c:3197-3220. */
    method SkipSpace()
      requires Valid()
      modifies this`limit, this`offset, this`compact
      ensures Valid() && offset == SpaceEnd(bytes, old(offset))
      ensures offset < |bytes| ==> compact == (old(compact) && offset == old(offset))
    {
      var skipped := false;
      while true
        invariant Valid() && old(offset) <= offset && skipped == (old(offset) < offset)
        invariant SpaceEnd(bytes, old(offset)) == SpaceEnd(bytes, offset) && compact == old(compact)
        decreases |bytes| - offset
      {
        if offset == limit {
          Refill();
          if offset == limit {
            return;
          }
        }
        if !IsSpace(bytes[offset]) {
          if skipped {
            compact := false;
          }
          return;
        }
        skipped := true;
        offset := offset + 1;
      }
    }

    // -------------------------------------------------------------- strings

    /** src/lql_json_scan.c:3222-3257. */
    method TakeHex() returns (ok: bool, value: int, raw: string)
      requires Valid()
      modifies this`limit, this`offset
      ensures Valid() && ok == HexAt(bytes, old(offset)).Some?
      ensures ok ==> offset == old(offset) + 4 && raw == bytes[old(offset)..offset] && value == HexValue(raw)
    {
      ghost var start := offset;
      value, raw := 0, "";
      var i := 0;
      while i < 4
        invariant Valid() && 0 <= i <= 4 && offset == start + i && raw == bytes[start..offset]
        invariant forall k :: start <= k < offset ==> HexDigit(bytes[k]) >= 0
        invariant i >= 1 ==> value == HexPrefix(bytes, start, i)
        invariant i == 0 ==> value == 0
      {
        var c := Take();
        if c.None? || HexDigit(c.value) < 0 {
          NotHex(bytes, start, i);
          return false, 0, "";
        }
        raw := raw + [c.value];
        value := value * 16 + HexDigit(c.value);
        i := i + 1;
      }
      IsHexAt(bytes, start);
      ok := true;
    }

    /** The run of plain ASCII in the buffer. */
    method PlainSpan(from: nat) returns (n: nat)
      requires Valid() && from <= limit
      ensures from + n <= limit && AllPlain(bytes[from..from + n])
      ensures from + n < limit ==> !IsPlain(bytes[from + n])
    {
      n := 0;
      while from + n < limit && IsPlain(bytes[from + n])
        invariant from + n <= limit && AllPlain(bytes[from..from + n])
      {
        assert bytes[from..from + n + 1] == bytes[from..from + n] + [bytes[from + n]];
        n := n + 1;
      }
    }

    /** src/lql_json_scan.c:3326-3369: the part of an escape after its backslash. */
    method SkipEscape() returns (ok: bool)
      requires Valid() && offset > 0 && bytes[offset - 1] == '\\'
      modifies this`limit, this`offset
      ensures Valid() && ok == ItemAt(bytes, old(offset) - 1).Some?
      ensures ok ==> offset == old(offset) - 1 + |ItemText(ItemAt(bytes, old(offset) - 1).value)|
    {
      hide HexAt, HexValue, IsHex;
      ghost var pos := offset - 1;
      var c := Take();
      if c.None? {
        return false;
      }
      if IsSimple(c.value) {
        return true;
      }
      if c.value != 'u' {
        return false;
      }
      var high, low: int, raw;
      ok, high, raw := TakeHex();
      HexLength(bytes, pos + 2);
      if !ok || IsLow(high) {
        return false;
      }
      if !IsHigh(high) {
        return true;
      }
      ok := TakeExpected('\\');
      if !ok {
        return;
      }
      ok := TakeExpected('u');
      if !ok {
        return;
      }
      ok, low, raw := TakeHex();
      if ok {
        HexLength(bytes, pos + 8);
        ok := IsLow(low);
      }
    }

    /** src/lql_json_scan.c:3371-3404: the continuation bytes after the first byte of a character. */
    method SkipContinuations() returns (ok: bool)
      requires Valid() && offset > 0 && bytes[offset - 1] as int >= 0x80
      modifies this`limit, this`offset
      ensures Valid() && ok == ItemAt(bytes, old(offset) - 1).Some?
      ensures ok ==> offset == old(offset) - 1 + |ItemText(ItemAt(bytes, old(offset) - 1).value)|
    {
      ghost var pos := offset - 1;
      var first := bytes[offset - 1];
      UnitByContinuations(bytes, pos);
      ItemOfUnit(bytes, pos);
      if Width(first) == 0 {
        return false;
      }
      var remaining := Width(first) - 1;
      var min, max := SecondMin(first), SecondMax(first);
      while remaining != 0
        invariant Valid() && 0 <= remaining < Width(first) && offset == pos + Width(first) - remaining
        invariant forall k: nat :: 1 <= k < Width(first) - remaining ==> Continues(bytes, pos, k)
        invariant if remaining == Width(first) - 1 then min == SecondMin(first) && max == SecondMax(first)
                  else min == 0x80 && max == 0xbf
      {
        ghost var k := Width(first) - remaining;
        var c := Take();
        if c.None? || (c.value as int) < min || c.value as int > max {
          assert !Continues(bytes, pos, k);
          return false;
        }
        assert Continues(bytes, pos, k);
        remaining := remaining - 1;
        min, max := 0x80, 0xbf;
      }
      ok := true;
    }

    /** src/lql_json_scan.c:3289-3406. */
    method SkipString() returns (ok: bool)
      requires Valid()
      modifies this`limit, this`offset
      ensures Valid() && ok == (IsAt(bytes, old(offset), '"') && StringAt(bytes, old(offset) + 1).Some?)
      ensures ok ==> offset == StringAt(bytes, old(offset) + 1).value.next
    {
      hide StringAt, ItemAt, ItemText, ItemMeaning, Decodes, IsPlain, AllPlain;
      ok := TakeExpected('"');
      if !ok {
        return;
      }
      ghost var start, text := offset, "";
      DecodesNothing(bytes, start);
      while true
        invariant Valid() && start <= offset && Decodes(bytes, start, offset, text)
        decreases |bytes| - offset
      {
        Refill();
        ghost var was := offset;
        if offset == limit {
          NoItem(bytes, offset);
          NotClosed(bytes, start, offset, text);
          return false;
        }
        var n := PlainSpan(offset);
        if n != 0 {
          DecodesSpan(bytes, offset, n);
          DecodesThen(bytes, start, offset, offset + n, text, bytes[offset..offset + n]);
          text := text + bytes[offset..offset + n];
          offset := offset + n;
          continue;
        }
        var c := bytes[offset];
        offset := offset + 1;
        if c == '"' {
          DecodesToQuote(bytes, start, was, text);
          return true;
        }
        if c == '\\' {
          ok := SkipEscape();
        } else if c as int >= 0x80 {
          ok := SkipContinuations();
        } else {
          ControlIsNoItem(bytes, was);
          ok := false;
        }
        if !ok {
          NoItem(bytes, was);
          NotClosed(bytes, start, was, text);
          return;
        }
        DecodesItem(bytes, was);
        DecodesThen(bytes, start, was, offset, text, ItemMeaning(ItemAt(bytes, was).value));
        text := text + ItemMeaning(ItemAt(bytes, was).value);
        ItemAdvances(bytes, was);
      }
    }

    // -------------------------------------------------------------- other values

    /** src/lql_json_scan.c:4592-4603. */
    method SkipLiteral(v: Value) returns (ok: bool)
      requires Valid() && (v.Null? || v.Bool?)
      modifies this`limit, this`offset
      ensures Valid() && ok == At(bytes, old(offset), Literal(v))
      ensures ok ==> offset == old(offset) + |Literal(v)|
    {
      ghost var start := offset;
      var word := Literal(v);
      for i := 0 to |word|
        invariant Valid() && offset == start + i && bytes[start..offset] == word[..i]
      {
        ok := TakeExpected(word[i]);
        if !ok {
          NotThere(bytes, start, word, i);
          return;
        }
        assert word[..i + 1] == word[..i] + [word[i]] && bytes[start..offset] == bytes[start..offset - 1] + [word[i]];
      }
      assert word[..|word|] == word;
      ok := true;
    }

    /** The digit loops of src/lql_json_scan.c:4701-4776. */
    method SkipDigits()
      requires Valid()
      modifies this`limit, this`offset
      ensures Valid() && offset == JsonNumber.DigitsEnd(bytes, old(offset))
    {
      while true
        invariant Valid() && JsonNumber.DigitsEnd(bytes, offset) == JsonNumber.DigitsEnd(bytes, old(offset))
        decreases |bytes| - offset
      {
        var c := Peek();
        if c.None? || !IsDigit(c.value) {
          return;
        }
        offset := offset + 1;
      }
    }

    /** src/lql_json_scan.c:4701-4776. */
    method SkipNumber() returns (ok: bool)
      requires Valid()
      modifies this`limit, this`offset
      ensures Valid() && ok == NumberEnd(bytes, old(offset)).Some?
      ensures ok ==> offset == NumberEnd(bytes, old(offset)).value
    {
      hide IntegerEnd, FractionEnd, ExponentEnd;
      ok := SkipInteger();
      if ok {
        ok := SkipFraction();
        if ok {
          ok := SkipExponent();
        }
      }
    }

    method SkipInteger() returns (ok: bool)
      requires Valid()
      modifies this`limit, this`offset
      ensures Valid() && ok == IntegerEnd(bytes, old(offset)).Some?
      ensures ok ==> offset == IntegerEnd(bytes, old(offset)).value
    {
      var c := Peek();
      if c == Some('-') {
        offset := offset + 1;
        c := Peek();
      }
      if c.None? || !IsDigit(c.value) {
        return false;
      }
      if c == Some('0') {
        offset := offset + 1;
      } else {
        SkipDigits();
      }
      ok := true;
    }

    method SkipFraction() returns (ok: bool)
      requires Valid()
      modifies this`limit, this`offset
      ensures Valid() && ok == FractionEnd(bytes, old(offset)).Some?
      ensures ok ==> offset == FractionEnd(bytes, old(offset)).value
    {
      var c := Peek();
      if c != Some('.') {
        return true;
      }
      offset := offset + 1;
      c := Peek();
      if c.None? || !IsDigit(c.value) {
        return false;
      }
      SkipDigits();
      ok := true;
    }

    method SkipExponent() returns (ok: bool)
      requires Valid()
      modifies this`limit, this`offset
      ensures Valid() && ok == ExponentEnd(bytes, old(offset)).Some?
      ensures ok ==> offset == ExponentEnd(bytes, old(offset)).value
    {
      var c := Peek();
      if c.None? || !JsonNumber.IsMark(c.value) {
        return true;
      }
      offset := offset + 1;
      c := Peek();
      if c.Some? && JsonNumber.IsPlusMinus(c.value) {
        offset := offset + 1;
        c := Peek();
      }
      if c.None? || !IsDigit(c.value) {
        return false;
      }
      SkipDigits();
      ok := true;
    }

    /** src/lql_json_scan.c:3490-3513. */
    method SkipValue() returns (ok: bool)
      requires Valid()
      modifies this
      ensures Valid() && ok == ParseValue(bytes, old(offset), old(depth)).Some?
      ensures ok ==> Read(old(offset), old(depth), old(compact))
      decreases |bytes| - offset, 0
    {
      hide ParseContainer, StringAt, NumberEnd, Print, Strip, SpaceEnd, At, Literal;
      var c := Peek();
      if c.None? {
        return false;
      }
      if c == Some('{') || c == Some('[') {
        ok := SkipContainer(c == Some('{'));
      } else if c == Some('"') {
        ok := SkipString();
      } else if c == Some('t') {
        ok := SkipLiteral(Bool(true));
      } else if c == Some('f') {
        ok := SkipLiteral(Bool(false));
      } else if c == Some('n') {
        ok := SkipLiteral(Null);
      } else {
        ok := SkipNumber();
      }
      ScalarIsTight(bytes, old(offset));
    }

    /** The value at pos was read to the current offset, and compact still tells whether space was skipped. */
    predicate Read(pos: nat, level: nat, was: bool)
      requires pos <= |bytes| && ParseValue(bytes, pos, level).Some?
      reads this
    {
      var p := ParseValue(bytes, pos, level).value;
      offset == p.next && depth == level && compact == (was && Tight(p.value))
    }

    /** src/lql_json_scan.c:3408-3488: an object or an array. */
    method SkipContainer(braces: bool) returns (ok: bool)
      requires Valid() && IsAt(bytes, offset, Open(braces)[0])
      modifies this
      ensures Valid() && ok == ParseContainer(bytes, old(offset), old(depth)).Some?
      ensures ok ==> var p := ParseContainer(bytes, old(offset), old(depth)).value;
        offset == p.next && depth == old(depth) && compact == (old(compact) && Tight(p.value))
      decreases |bytes| - offset - 1, 4
    {
      hide ParseMembers, SpaceEnd, StripMembers;
      ghost var pos, level, was := offset, depth, compact;
      if depth == MAX_DEPTH {
        return false;
      }
      depth := depth + 1;
      ok := TakeExpected(Open(braces)[0]);
      SkipSpace();
      var c := Peek();
      if c == Some(Closing(braces)[0]) {
        offset := offset + 1;
        depth := depth - 1;
        NoSpace(bytes, pos + 1);
        return true;
      }
      ok := SkipMembers(braces, pos + 1, was);
      if ok {
        depth := depth - 1;
      }
    }

    /** The loop of src/lql_json_scan.c:3430-3455 and 3471-3487; from is just after the opening bracket. */
    method SkipMembers(braces: bool, ghost from: nat, ghost was: bool) returns (ok: bool)
      requires Valid() && from <= |bytes| && offset == SpaceEnd(bytes, from)
      requires offset < |bytes| ==> compact == (was && offset == from)
      modifies this
      ensures Valid() && ok == ParseMembers(bytes, from, old(depth), braces).Some?
      ensures ok ==> var p := ParseMembers(bytes, from, old(depth), braces).value;
        offset == p.next && depth == old(depth) && compact == (was && TightMembers(p.members))
      decreases |bytes| - from, 3
    {
      hide ParseMember, ParseMembers, SpaceEnd, TightMembers, TightMember, TightAfterStart;
      ghost var q, tight, level := from, true, depth;
      ghost var whole := ParseMembers(bytes, from, depth, braces);
      while true
        invariant Valid() && from <= q <= |bytes| && offset == SpaceEnd(bytes, q) && depth == level
        invariant offset < |bytes| ==> compact == (was && tight && offset == q)
        invariant Remains(whole, ParseMembers(bytes, q, level, braces), tight)
        decreases |bytes| - q
      {
        MembersStep(bytes, q, level, braces, whole, tight);
        ok := SkipMember(braces, q, was && tight && offset == q);
        if !ok {
          return;
        }
        ghost var m := ParseMember(bytes, q, level, braces).value;
        var c := Take();
        if c == Some(Closing(braces)[0]) {
          return true;
        }
        if c != Some(',') {
          return false;
        }
        q, tight := offset, tight && TightMember(m.member);
        SkipSpace();
      }
    }

    /** A key with its colon, for an object, and a value, and the space after it. */
    method SkipMember(braces: bool, ghost from: nat, ghost was: bool) returns (ok: bool)
      requires Valid() && from <= |bytes| && offset == SpaceEnd(bytes, from)
      requires offset < |bytes| ==> compact == was
      modifies this
      ensures Valid() && ok == ParseMember(bytes, from, old(depth), braces).Some?
      ensures ok ==> var p := ParseMember(bytes, from, old(depth), braces).value;
        offset == p.next && depth == old(depth) && (offset < |bytes| ==> compact == (was && TightAfterStart(p.member)))
      decreases |bytes| - from, 2
    {
      hide ParseValue, SpaceEnd, Strip, StringAt;
      ghost var q := offset;
      if braces {
        ok := SkipKey(was);
        if !ok {
          return;
        }
      }
      ghost var k := ParseKey(bytes, q, braces).value;
      ParseValueStarts(bytes, k.next, depth);
      ok := SkipValue();
      if ok {
        ghost var v := ParseValue(bytes, k.next, depth).value;
        SkipSpace();
        NoSpace(bytes, v.next);
      }
    }

    method SkipKey(ghost was: bool) returns (ok: bool)
      requires Valid() && (offset < |bytes| ==> compact == was)
      modifies this`limit, this`offset, this`compact
      ensures Valid() && ok == ParseKey(bytes, old(offset), true).Some?
      ensures ok ==> var k := ParseKey(bytes, old(offset), true).value;
        offset == k.next && (offset < |bytes| ==> compact == (was && TightKey(k.key)))
    {
      hide StringAt, SpaceEnd;
      ghost var q := offset;
      ok := SkipString();
      if !ok {
        return;
      }
      ghost var t := offset;
      SkipSpace();
      ghost var colon := offset;
      ok := TakeExpected(':');
      if !ok {
        return;
      }
      SkipSpace();
      NoSpace(bytes, t);
      NoSpace(bytes, colon + 1);
    }
  }

  // ---------------------------------------------------------------- white space

  /** Nothing to strip. */
  predicate Tight(v: Value) { Strip(v) == v }

  predicate TightMembers(ms: Members) { StripMembers(ms) == ms }

  predicate TightMember(m: Member) { StripMember(m) == m }

  predicate TightKey(key: Key) { key.NoKey? || (key.colon == "" && key.gap == "") }

  predicate TightAfterStart(m: Member) { TightKey(m.key) && Tight(m.value) && m.after == "" }

  lemma NoSpace(s: string, p: nat)
    requires p <= |s|
    ensures s[p..SpaceEnd(s, p)] == "" <==> SpaceEnd(s, p) == p
  {
  }

  lemma ScalarIsTight(s: string, p: nat)
    requires p <= |s|
    ensures p < |s| && s[p] != '{' && s[p] != '[' && ParseScalar(s, p).Some? ==> Tight(ParseScalar(s, p).value.value)
  {
  }

  lemma ParseValueStarts(s: string, p: nat, depth: nat)
    requires p <= |s|
    ensures p == |s| ==> ParseValue(s, p, depth).None?
  {
  }

  lemma TightParts(s: string, from: nat, depth: nat, braces: bool)
    requires from <= |s| && ParseMember(s, from, depth, braces).Some?
    ensures var m := ParseMember(s, from, depth, braces).value.member;
      TightMember(m) <==> SpaceEnd(s, from) == from && TightAfterStart(m)
  {
    hide SpaceEnd, ParseKey, ParseValue, Strip;
    NoSpace(s, from);
  }

  /** What is left to read of the members decides the whole. */
  predicate Remains(whole: Option<ParsedMembers>, rest: Option<ParsedMembers>, tight: bool) {
    && whole.Some? == rest.Some?
    && (whole.Some? ==> whole.value.next == rest.value.next
                        && TightMembers(whole.value.members) == (tight && TightMembers(rest.value.members)))
  }

  /** One turn of the members loop. */
  lemma MembersStep(s: string, q: nat, depth: nat, braces: bool, whole: Option<ParsedMembers>, tight: bool)
    requires q <= |s| && Remains(whole, ParseMembers(s, q, depth, braces), tight)
    ensures ParseMember(s, q, depth, braces).None? ==> whole.None?
    ensures ParseMember(s, q, depth, braces).Some? ==>
              var m := ParseMember(s, q, depth, braces).value;
              && q < m.next <= |s|
              && (TightMember(m.member) <==> SpaceEnd(s, q) == q && TightAfterStart(m.member))
              && (if IsAt(s, m.next, Closing(braces)[0]) then
                    && whole.Some? && whole.value.next == m.next + 1
                    && TightMembers(whole.value.members) == (tight && TightMember(m.member))
                  else if IsAt(s, m.next, ',') then
                    Remains(whole, ParseMembers(s, m.next + 1, depth, braces), tight && TightMember(m.member))
                  else whole.None?)
  {
    hide ParseMember, SpaceEnd, StripMember, TightAfterStart;
    if ParseMember(s, q, depth, braces).Some? {
      TightParts(s, q, depth, braces);
    }
  }

  lemma NotThere(s: string, start: nat, word: string, i: nat)
    requires i < |word| && !IsAt(s, start + i, word[i])
    ensures !At(s, start, word)
  {
    if start + |word| <= |s| {
      assert s[start..start + |word|][i] == s[start + i];
    }
  }

  // ---------------------------------------------------------------- strings

  function HexPrefix(s: string, start: nat, n: nat): int
    requires 1 <= n <= 4 && start + n <= |s|
  {
    if n == 1 then HexDigit(s[start]) else HexPrefix(s, start, n - 1) * 16 + HexDigit(s[start + n - 1])
  }

  lemma IsHexAt(s: string, start: nat)
    requires start + 4 <= |s| && forall k :: start <= k < start + 4 ==> HexDigit(s[k]) >= 0
    ensures HexAt(s, start) == Some(s[start..start + 4]) && HexValue(s[start..start + 4]) == HexPrefix(s, start, 4)
  {
    var h := s[start..start + 4];
    assert h[0] == s[start] && h[1] == s[start + 1] && h[2] == s[start + 2] && h[3] == s[start + 3];
    assert HexPrefix(s, start, 3) == HexPrefix(s, start, 2) * 16 + HexDigit(s[start + 2]);
    assert HexPrefix(s, start, 2) == HexPrefix(s, start, 1) * 16 + HexDigit(s[start + 1]);
  }

  lemma NotHex(s: string, start: nat, i: nat)
    requires i < 4 && (start + i >= |s| || HexDigit(s[start + i]) < 0)
    ensures HexAt(s, start).None?
  {
    if start + 4 <= |s| {
      assert s[start..start + 4][i] == s[start + i];
    }
  }

  lemma HexLength(s: string, pos: nat)
    ensures HexAt(s, pos).Some? ==> pos + 4 <= |s| && HexAt(s, pos).value == s[pos..pos + 4]
  {
  }

  lemma NotClosed(s: string, p: nat, q: nat, text: string)
    requires p <= |s| && q <= |s| && Decodes(s, p, q, text) && StringAt(s, q).None?
    ensures StringAt(s, p).None?
  {
  }

  lemma ControlIsNoItem(s: string, p: nat)
    requires p < |s| && s[p] != '"' && s[p] != '\\' && !IsPlain(s[p]) && s[p] as int < 0x80
    ensures ItemAt(s, p).None?
  {
  }

  lemma ItemAdvances(s: string, p: nat)
    requires p <= |s| && ItemAt(s, p).Some?
    ensures |ItemText(ItemAt(s, p).value)| > 0
  {
  }
}
