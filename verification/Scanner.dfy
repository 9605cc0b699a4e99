/** The full scanner of src/lql_json_scan.c: one pass over a record that validates it, emits it without white
    space and collects the terms that hit. */
module Scanner {
  import opened Wrappers
  import opened Utf8
  import opened Digits
  import opened CaseFold
  import opened Terms
  import opened TextMatch
  import opened DateTerms
  import opened JsonSyntax
  import opened JsonParse
  import opened JsonStrings
  import opened Query
  import opened Reader
  import opened Emitter
  import opened ScanEffect
  import opened Captures
  import opened CaptureKeys
  import opened CaptureTurns
  import JsonNumber
  import JsonRoundTrip
  import NumberCompare
  import opened NumberHits
  import NumberStream

  /** What a scanner with or without a writer emits for a text. */
  function Kept(writing: bool, text: string): string { if writing then text else "" }

  lemma KeptThen(writing: bool, before: string, a: string, b: string)
    ensures before + Kept(writing, a) + Kept(writing, b) == before + Kept(writing, a + b)
  {
    assert before + a + b == before + (a + b);
  }

  predicate IsAnyWildcard(segment: string) { IsObjectWildcard(segment) || IsArrayWildcard(segment) }

  predicate IsIndex(segment: string) { |segment| > 0 && AllDigits(segment) }

  ghost predicate NoSegment(terms: seq<Term>, kind: string -> bool) {
    forall i, d :: 0 <= i < |terms| && 0 <= d < |terms[i].path| ==> !kind(terms[i].path[d])
  }

  /** src/lql_json_scan.c:4999-5043: what kinds of segments the terms have. */
  method SegmentFlags(terms: seq<Term>) returns (arrays: bool, objects: bool)
    ensures !arrays ==> NoSegment(terms, IsAnyWildcard)
    ensures !objects ==> NoSegment(terms, IsObjectWildcard)
  {
    arrays, objects := false, false;
    for i := 0 to |terms|
      invariant !arrays ==> NoSegment(terms[..i], IsAnyWildcard)
      invariant !objects ==> NoSegment(terms[..i], IsObjectWildcard)
    {
      var path := terms[i].path;
      for d := 0 to |path|
        invariant !arrays ==> NoSegment(terms[..i], IsAnyWildcard) && forall e :: 0 <= e < d ==> !IsAnyWildcard(path[e])
        invariant !objects ==> NoSegment(terms[..i], IsObjectWildcard) && forall e :: 0 <= e < d ==> !IsObjectWildcard(path[e])
      {
        arrays := arrays || IsAnyWildcard(path[d]) || IsIndex(path[d]);
        objects := objects || IsObjectWildcard(path[d]);
      }
    }
    assert terms[..|terms|] == terms;
  }

  /** src/lql_json_scan.c:2029-2071 and 2890-2902: a numeric segment that overflows size_t matches no index. */
  method SegmentMatchesIndex(segment: string, index: nat) returns (hit: bool)
    requires index <= SIZE_MAX
    ensures hit == IndexStep(segment, index)
  {
    hide NatOf, AllDigits;
    if IsArrayWildcard(segment) {
      return true;
    }
    hit := DigitsMatchIndex(segment, index);
  }

  /** What a record callback receives, or the end of the input, or an error. */
  datatype RecordResult = Done | Failed
                        | Found(rootIsObject: bool, hits: set<nat>, spool: string, start: nat, len: nat, compact: bool)

  /** The position after the end of the line, with no more than blanks before it. */
  function LineEnd(s: string, pos: nat): (r: Option<nat>)
    requires pos <= |s|
    ensures r.Some? ==> pos <= r.value <= |s|
    decreases |s| - pos
  {
    if pos == |s| then Some(pos)
    else if s[pos] == ' ' || s[pos] == '\t' then LineEnd(s, pos + 1)
    else if s[pos] == '\n' then Some(pos + 1)
    else if s[pos] == '\r' && IsAt(s, pos + 1, '\n') then Some(pos + 2)
    else None
  }

  /** Blanks, then the end of the input, a line feed, or a carriage return and a line feed. */
  lemma {:induction false} LinesEnd(s: string, pos: nat, end: nat)
    requires pos <= end <= |s| && (forall i :: pos <= i < end ==> s[i] as int in {0x09, 0x20}) && (end < |s| ==> s[end] as int !in {0x09, 0x20})
    ensures LineEnd(s, pos)
         == if end == |s| then Some(end)
            else if s[end] as int == 0x0a then Some(end + 1)
            else if s[end] as int == 0x0d && end + 1 < |s| && s[end + 1] as int == 0x0a then Some(end + 2)
            else None
    decreases end - pos
  {
    if pos < end {
      LinesEnd(s, pos + 1, end);
    }
  }

  /** The terms whose path reaches a node that satisfies them. */
  ghost function Reached(ranges: seq<CaseRange>, terms: seq<Term>, v: Value): set<nat> {
    set i | i in AllBits(|terms|) && exists node :: Reaches(v, terms[i].path, node) && Satisfies(ranges, terms[i], node)
  }

  /** The record is the value v at start, on a line of its own. */
  ghost predicate RecordIs(ranges: seq<CaseRange>, terms: seq<Term>, writing: bool, s: string, v: Value, r: RecordResult)
    requires r.Found? && r.start + r.len <= |s|
  {
    && s[r.start..r.start + r.len] == Print(v) && WellFormed(v) && Nesting(v) <= MAX_DEPTH
    && r.rootIsObject == ((v.Nest? || v.Empty?) && v.braces)
    && (Exact(terms, v) ==> r.hits == if r.rootIsObject then Reached(ranges, terms, v) else {})
    && r.spool == Kept(writing, Print(Strip(v)))
    && (r.compact <==> s[r.start..r.start + r.len] == Print(Strip(v)))
  }

  /** What one turn of the record loop does from a position on. */
  ghost predicate Recorded(ranges: seq<CaseRange>, terms: seq<Term>, writing: bool, s: string, from: nat, r: RecordResult)
    requires from <= |s|
  {
    var start := SpaceEnd(s, from);
    var p := ParseValue(s, start, 0);
    var parsed := start < |s| && s[start] != '[' && p.Some? && LineEnd(s, p.value.next).Some?;
    && (r.Done? <==> start == |s|)
    && Accepts(r.Found?, parsed, parsed && Shallow(p.value.value, 0), writing)
    && (r.Found? ==> r.start == start && r.start + r.len == p.value.next && RecordIs(ranges, terms, writing, s, p.value.value, r))
  }

  class Scanner {
    const input: Input
    const output: Output
    const matcher: TextMatcher
    const captures: Collector
    /** number_match_cap: the buffer that a long number left to the next one. */
    var numberCapacity: nat
    const ranges: seq<CaseRange>
    const terms: seq<Term>
    const hasArrayTerms: bool
    const hasObjectWildcards: bool
    var hits: set<nat>
    /** path_active: for every depth, the terms whose path led there. */
    var pathActive: seq<set<nat>>

    ghost predicate Valid()
      reads this, input, output, matcher
    {
      && input.Valid() && output.Valid() && matcher.Valid()
      && matcher.ranges == ranges && matcher.terms == terms && matcher.keys == captures.keys
      && |input.bytes| <= NumberCompare.LONG_MAX && |pathActive| == MAX_DEPTH && numberCapacity >= NumberStream.MATCH_BYTES
      && (!hasArrayTerms ==> NoSegment(terms, IsAnyWildcard)) && (!hasObjectWildcards ==> NoSegment(terms, IsObjectWildcard))
    }

    ghost function Now(): Totals
      requires output.Valid()
      reads this, input, output, output.buffer
    {
      Totals(hits, input.compact, output.Contents())
    }

    constructor (bytes: string, writing: bool, ranges: seq<CaseRange>, terms: seq<Term>, keys: seq<seq<string>>)
      requires |bytes| <= NumberCompare.LONG_MAX
      requires WellFormedTable(ranges) && forall i :: 0 <= i < |terms| ==> WellFormedTerm(terms[i])
      ensures Valid() && input.bytes == bytes && output.writing == writing && this.ranges == ranges && this.terms == terms
      ensures captures.Valid() && captures.keys == keys
      ensures fresh(input) && fresh(output) && fresh(output.buffer) && fresh(matcher) && fresh(captures)
    {
      input := new Input(bytes);
      output := new Output(writing);
      matcher := new TextMatcher(ranges, terms, keys);
      captures := new Collector(keys);
      this.ranges, this.terms := ranges, terms;
      hits, pathActive, numberCapacity := {}, seq(MAX_DEPTH, _ => {}), NumberStream.MATCH_BYTES;
      var arrays, objects := SegmentFlags(terms);
      hasArrayTerms, hasObjectWildcards := arrays, objects;
    }

    // -------------------------------------------------------------- strings

    /** Since the matcher had seen fed and out was emitted, the text was matched and the raw bytes were copied. */
    ghost predicate Passed(fed: string, out: string, text: string, raw: string)
      requires output.Valid()
      reads output, output.buffer, matcher
    {
      matcher.fed == fed + text && output.Contents() == out + Kept(output.writing, raw)
    }

    method CopyRaw(data: string, ghost fed: string, ghost out: string, ghost text: string, ghost raw: string)
      requires Valid() && Passed(fed, out, text, raw)
      modifies output`len, output`sunk, output.buffer
      ensures Valid() && Passed(fed, out, text, raw + data)
    {
      hide TextMatcher.Valid;
      output.Write(data);
      KeptThen(output.writing, out, raw, data);
    }

    method MatchBytes(data: string, ghost fed: string, ghost out: string, ghost text: string, ghost raw: string)
      requires Valid() && Passed(fed, out, text, raw)
      modifies matcher`slots, matcher`caseBytes, matcher`caseNeed, matcher`dateText, matcher`datesFailed, matcher`progress, matcher`fed
      ensures Valid() && Passed(fed, out, text + data, raw)
    {
      hide TextMatcher.Valid;
      for i := 0 to |data|
        invariant Valid() && matcher.fed == fed + text + data[..i]
      {
        matcher.Byte(data[i]);
        assert data[..i + 1] == data[..i] + [data[i]];
      }
      assert data[..|data|] == data;
      assert fed + text + data == fed + (text + data);
    }

    method CopyByte(c: char, ghost fed: string, ghost out: string, ghost text: string, ghost raw: string)
      requires Valid() && Passed(fed, out, text, raw)
      modifies output`len, output`sunk, output.buffer
      modifies matcher`slots, matcher`caseBytes, matcher`caseNeed, matcher`dateText, matcher`datesFailed, matcher`progress, matcher`fed
      ensures Valid() && Passed(fed, out, text + [c], raw + [c])
    {
      hide TextMatcher.Valid;
      output.WriteByte(c);
      matcher.Byte(c);
      KeptThen(output.writing, out, raw, [c]);
      assert fed + text + [c] == fed + (text + [c]);
    }

    /** src/lql_json_scan.c:3553-3574: the plain bytes that the buffer holds. */
    method PlainRun(ghost fed: string, ghost out: string, ghost text: string, ghost raw: string) returns (n: nat)
      requires Valid() && Passed(fed, out, text, raw) && Fold(ranges, matcher.fed).pending == ""
      modifies input`offset, output`len, output`sunk, output.buffer
      modifies matcher`slots, matcher`dateText, matcher`datesFailed, matcher`progress, matcher`fed
      ensures Valid() && input.offset == old(input.offset) + n && AllPlain(input.bytes[old(input.offset)..input.offset])
      ensures var span := input.bytes[old(input.offset)..input.offset]; Passed(fed, out, text + span, raw + span)
      ensures n == 0 && input.offset < input.limit ==> !IsPlain(input.bytes[input.offset])
      ensures n == 0 ==> Passed(fed, out, text, raw)
    {
      hide Fold, TextMatcher.Valid, AllPlain;
      n := input.PlainSpan(input.offset);
      var span := input.bytes[input.offset..input.offset + n];
      input.offset := input.offset + n;
      output.Write(span);
      PlainIsAscii(span);
      if !matcher.Deaf() {
        matcher.Span(span);
      } else {
        matcher.Ignore(span);
      }
      KeptThen(output.writing, out, raw, span);
      assert fed + text + span == fed + (text + span);
      assert n == 0 ==> text + span == text && raw + span == raw;
    }

    /** src/lql_json_scan.c:3576-3645: an escape whose backslash is already taken. */
    method StringEscape(ghost fed: string, ghost out: string, ghost text: string, ghost raw: string) returns (ok: bool)
      requires Valid() && input.offset > 0 && input.bytes[input.offset - 1] == '\\' && Passed(fed, out, text, raw)
      modifies input`limit, input`offset, output`len, output`sunk, output.buffer
      modifies matcher`slots, matcher`caseBytes, matcher`caseNeed, matcher`dateText, matcher`datesFailed, matcher`progress, matcher`fed
      ensures Valid() && ok == ItemAt(input.bytes, old(input.offset) - 1).Some?
      ensures ok ==> var item := ItemAt(input.bytes, old(input.offset) - 1).value;
        && input.offset == old(input.offset) - 1 + |ItemText(item)|
        && Passed(fed, out, text + ItemMeaning(item), raw + ItemText(item))
    {
      hide TextMatcher.Valid, ItemAt, ItemText, ItemMeaning, Unescape, IsSimple, Passed;
      ghost var pos := input.offset - 1;
      EscapeCases(input.bytes, pos, raw);
      CopyRaw("\\", fed, out, text, raw);
      var next := input.Take();
      if next.None? {
        return false;
      }
      if IsSimple(next.value) {
        MatchBytes([Unescape(next.value)], fed, out, text, raw + "\\");
        CopyRaw([next.value], fed, out, text + [Unescape(next.value)], raw + "\\");
        return true;
      }
      if next.value != 'u' {
        return false;
      }
      CopyRaw("u", fed, out, text, raw + "\\");
      ok := StringCode(pos, fed, out, text, raw);
    }

    /** src/lql_json_scan.c:3605-3621, after the u. */
    method StringCode(ghost pos: nat, ghost fed: string, ghost out: string, ghost text: string, ghost raw: string) returns (ok: bool)
      requires Valid() && input.offset == pos + 2 && input.bytes[pos] == '\\' && input.bytes[pos + 1] == 'u'
      requires Passed(fed, out, text, raw + "\\" + "u")
      modifies input`limit, input`offset, output`len, output`sunk, output.buffer
      modifies matcher`slots, matcher`caseBytes, matcher`caseNeed, matcher`dateText, matcher`datesFailed, matcher`progress, matcher`fed
      ensures Valid() && ok == ItemAt(input.bytes, pos).Some?
      ensures ok ==> var item := ItemAt(input.bytes, pos).value;
        && input.offset == pos + |ItemText(item)|
        && Passed(fed, out, text + ItemMeaning(item), raw + ItemText(item))
    {
      hide TextMatcher.Valid, HexAt, HexValue, IsHex, Encode, ItemAt, ItemText, ItemMeaning, Passed;
      ghost var bytes := input.bytes;
      CodeCases(bytes, pos);
      var high: int, hex;
      ok, high, hex := input.TakeHex();
      if !ok {
        return;
      }
      HexLength(bytes, pos + 2);
      CopyRaw(hex, fed, out, text, raw + "\\" + "u");
      if IsLow(high) {
        return false;
      }
      if !IsHigh(high) {
        ItemIsCode(bytes, pos);
        assert raw + "\\" + "u" + hex == raw + ("\\u" + hex);
        MatchBytes(Encode(high), fed, out, text, raw + "\\" + "u" + hex);
        return true;
      }
      ok := StringLow(pos, high, hex, fed, out, text, raw);
    }

    /** src/lql_json_scan.c:3622-3637: the second half of a surrogate pair. */
    method StringLow(ghost pos: nat, high: int, ghost first: string, ghost fed: string, ghost out: string, ghost text: string,
                     ghost raw: string) returns (ok: bool)
      requires Valid() && input.offset == pos + 6 && input.bytes[pos] == '\\' && input.bytes[pos + 1] == 'u'
      requires HexAt(input.bytes, pos + 2) == Some(first) && first == input.bytes[pos + 2..pos + 6]
      requires HexValue(first) == high && IsHigh(high)
      requires Passed(fed, out, text, raw + "\\" + "u" + first)
      modifies input`limit, input`offset, output`len, output`sunk, output.buffer
      modifies matcher`slots, matcher`caseBytes, matcher`caseNeed, matcher`dateText, matcher`datesFailed, matcher`progress, matcher`fed
      ensures Valid() && ok == ItemAt(input.bytes, pos).Some?
      ensures ok ==> var item := ItemAt(input.bytes, pos).value;
        && input.offset == pos + |ItemText(item)|
        && Passed(fed, out, text + ItemMeaning(item), raw + ItemText(item))
    {
      hide TextMatcher.Valid, HexAt, HexValue, IsHex, Encode, ItemAt, ItemText, ItemMeaning, Passed;
      ghost var bytes := input.bytes;
      PairCases(bytes, pos);
      var low: int, hex;
      ghost var sofar := raw + "\\" + "u" + first;
      ok := input.TakeExpected('\\');
      if !ok {
        return;
      }
      CopyRaw("\\", fed, out, text, sofar);
      ok := input.TakeExpected('u');
      if !ok {
        return;
      }
      CopyRaw("u", fed, out, text, sofar + "\\");
      ok, low, hex := input.TakeHex();
      if !ok {
        return;
      }
      HexLength(bytes, pos + 8);
      CopyRaw(hex, fed, out, text, sofar + "\\" + "u");
      if !IsLow(low) {
        return false;
      }
      ItemIsPair(bytes, pos);
      assert sofar + "\\" + "u" + hex == raw + ("\\u" + first + "\\u" + hex);
      MatchBytes(Encode(PairValue(high, low)), fed, out, text, sofar + "\\" + "u" + hex);
    }

    /** src/lql_json_scan.c:3647-3680: the bytes of a character above ASCII; its first byte is already taken. */
    method StringUnit(ghost fed: string, ghost out: string, ghost text: string, ghost raw: string) returns (ok: bool)
      requires Valid() && input.offset > 0 && input.bytes[input.offset - 1] as int >= 0x80 && Passed(fed, out, text, raw)
      modifies input`limit, input`offset, output`len, output`sunk, output.buffer
      modifies matcher`slots, matcher`caseBytes, matcher`caseNeed, matcher`dateText, matcher`datesFailed, matcher`progress, matcher`fed
      ensures Valid() && ok == ItemAt(input.bytes, old(input.offset) - 1).Some?
      ensures ok ==> var item := ItemAt(input.bytes, old(input.offset) - 1).value;
        && input.offset == old(input.offset) - 1 + |ItemText(item)|
        && Passed(fed, out, text + ItemMeaning(item), raw + ItemText(item))
    {
      hide TextMatcher.Valid, ItemAt, Passed, Width, SecondMin, SecondMax, IsTail, Continues;
      ghost var pos, bytes := input.offset - 1, input.bytes;
      var first := input.bytes[input.offset - 1];
      UnitCases(bytes, pos);
      if Width(first) == 0 {
        return false;
      }
      CopyByte(first, fed, out, text, raw);
      var remaining := Width(first) - 1;
      var min, max := SecondMin(first), SecondMax(first);
      assert bytes[pos..input.offset] == [first];
      while remaining != 0
        invariant Valid() && 0 <= remaining < Width(first) && input.offset == pos + Width(first) - remaining
        invariant forall k: nat :: 1 <= k < Width(first) - remaining ==> Continues(bytes, pos, k)
        invariant if remaining == Width(first) - 1 then min == SecondMin(first) && max == SecondMax(first)
                  else min == 0x80 && max == 0xbf
        invariant Passed(fed, out, text + bytes[pos..input.offset], raw + bytes[pos..input.offset])
      {
        ghost var k := Width(first) - remaining;
        var next := input.Take();
        ContinuesIs(bytes, pos, k);
        if next.None? || (next.value as int) < min || next.value as int > max {
          return false;
        }
        CopyByte(next.value, fed, out, text + bytes[pos..input.offset - 1], raw + bytes[pos..input.offset - 1]);
        ByteMore(bytes, pos, input.offset - 1, text);
        ByteMore(bytes, pos, input.offset - 1, raw);
        remaining := remaining - 1;
        min, max := 0x80, 0xbf;
      }
      ok := true;
    }

    /** src/lql_json_scan.c:3575-3680: one character that is no plain ASCII and no quote. */
    method StringItem(ghost fed: string, ghost out: string, ghost text: string, ghost raw: string) returns (ok: bool)
      requires Valid() && Passed(fed, out, text, raw) && Fold(ranges, fed + text).pending == ""
      requires input.offset < input.limit && !IsPlain(input.bytes[input.offset]) && input.bytes[input.offset] != '"'
      modifies input`limit, input`offset, output`len, output`sunk, output.buffer
      modifies matcher`slots, matcher`caseBytes, matcher`caseNeed, matcher`dateText, matcher`datesFailed, matcher`progress, matcher`fed
      ensures Valid() && ok == ItemAt(input.bytes, old(input.offset)).Some?
      ensures ok ==> var item := ItemAt(input.bytes, old(input.offset)).value;
        && input.offset == old(input.offset) + |ItemText(item)|
        && Passed(fed, out, text + ItemMeaning(item), raw + ItemText(item))
        && Fold(ranges, fed + (text + ItemMeaning(item))).pending == ""
    {
      hide Fold, TextMatcher.Valid, ItemAt, ItemText, ItemMeaning, Passed;
      ghost var pos := input.offset;
      var c := input.bytes[input.offset];
      input.offset := input.offset + 1;
      if c == '\\' {
        ok := StringEscape(fed, out, text, raw);
      } else if c as int >= 0x80 {
        ok := StringUnit(fed, out, text, raw);
      } else {
        ControlIsNoItem(input.bytes, pos);
        return false;
      }
      if ok {
        ghost var meaning := ItemMeaning(ItemAt(input.bytes, pos).value);
        FoldUnit(ranges, fed + text, meaning);
        assert fed + text + meaning == fed + (text + meaning);
      }
    }

    lemma PassedNothing()
      requires output.Valid()
      ensures Passed(matcher.fed, output.Contents(), "", "")
    {
      assert matcher.fed + "" == matcher.fed && output.Contents() + "" == output.Contents();
    }

    lemma PassedIs(fed: string, out: string, text: string, raw: string)
      requires output.Valid() && Passed(fed, out, text, raw)
      ensures matcher.fed == fed + text && output.Contents() == out + Kept(output.writing, raw)
    {
    }

    lemma TableIsKnown()
      requires Valid()
      ensures WellFormedTable(ranges)
    {
    }

    /** src/lql_json_scan.c:3515-3681. */
    method StringToken() returns (ok: bool)
      requires Valid() && Fold(ranges, matcher.fed).pending == ""
      modifies input`limit, input`offset, output`len, output`sunk, output.buffer
      modifies matcher`slots, matcher`caseBytes, matcher`caseNeed, matcher`dateText, matcher`datesFailed, matcher`progress, matcher`fed
      ensures Valid() && ok == (IsAt(input.bytes, old(input.offset), '"') && StringAt(input.bytes, old(input.offset) + 1).Some?)
      ensures ok ==> var r := StringAt(input.bytes, old(input.offset) + 1).value;
        && input.offset == r.next && matcher.fed == old(matcher.fed) + Meaning(r.chars)
        && output.Contents() == old(output.Contents()) + Kept(output.writing, "\"" + CharsText(r.chars))
    {
      hide Fold, TextMatcher.Valid, StringAt, ItemAt, ItemText, ItemMeaning, Decodes, Passed, Kept, CharsText, Meaning, IsPlain, AllPlain;
      ghost var fed, out, bytes := matcher.fed, output.Contents(), input.bytes;
      ok := input.TakeExpected('"');
      if !ok {
        return;
      }
      PassedNothing();
      CopyRaw("\"", fed, out, "", "");
      ghost var start, text := input.offset, "";
      DecodesNothing(bytes, start);
      assert fed + "" == fed && "" + "\"" == "\"" + bytes[start..start];
      while true
        invariant Valid() && start <= input.offset && Decodes(bytes, start, input.offset, text)
        invariant Passed(fed, out, text, "\"" + bytes[start..input.offset]) && Fold(ranges, fed + text).pending == ""
        decreases |bytes| - input.offset
      {
        input.Refill();
        ghost var at, raw := input.offset, "\"" + bytes[start..input.offset];
        if input.offset == input.limit {
          NoItem(bytes, at);
          NotClosed(bytes, start, at, text);
          return false;
        }
        PassedIs(fed, out, text, raw);
        var n := PlainRun(fed, out, text, raw);
        if n != 0 {
          ghost var span := bytes[at..input.offset];
          TableIsKnown();
          StringSpan(bytes, start, at, n, ranges, fed, text);
          text := text + span;
          continue;
        }
        if input.bytes[input.offset] == '"' {
          input.offset := input.offset + 1;
          CopyRaw("\"", fed, out, text, raw);
          StringEnds(bytes, start, at, text);
          PassedIs(fed, out, text, raw + "\"");
          return true;
        }
        ok := StringItem(fed, out, text, raw);
        if !ok {
          NoItem(bytes, at);
          NotClosed(bytes, start, at, text);
          return;
        }
        ItemAdvances(bytes, at);
        StringItemRead(bytes, start, at, text);
        text := text + ItemMeaning(ItemAt(bytes, at).value);
      }
    }

    // -------------------------------------------------------------- numbers and literals

    /** The bytes of a token so far went to the matcher, to the output and, if there is one, to the number match. */
    ghost predicate Token(num: NumberStream.NumberMatch?, fed: string, out: string, start: nat)
      requires output.Valid() && start <= input.offset <= |input.bytes|
      reads input, output, output.buffer, matcher, num, if num != null then {num.buffer} else {}
    {
      && Passed(fed, out, input.bytes[start..input.offset], input.bytes[start..input.offset])
      && (num != null ==> num.Valid() && num.fed == input.bytes[start..input.offset] && num.buffer != output.buffer)
    }

    /** src/lql_json_scan.c:3266-3283: the byte just taken. */
    method CopyTaken(num: NumberStream.NumberMatch?, ghost fed: string, ghost out: string, ghost start: nat)
      requires Valid() && start < input.offset
      requires var text := input.bytes[start..input.offset - 1];
        && Passed(fed, out, text, text)
        && (num != null ==> num.Valid() && num.fed == text && num.buffer != output.buffer)
      modifies output`len, output`sunk, output.buffer
      modifies matcher`slots, matcher`caseBytes, matcher`caseNeed, matcher`dateText, matcher`datesFailed, matcher`progress, matcher`fed
      modifies num, if num != null then {num.buffer} else {}
      ensures Valid() && Token(num, fed, out, start)
      ensures num != null ==> num.buffer == old(num.buffer) || fresh(num.buffer)
    {
      hide TextMatcher.Valid, NumberStream.NumberMatch.Valid, Kept;
      var c := input.bytes[input.offset - 1];
      ghost var text := input.bytes[start..input.offset - 1];
      PassedIs(fed, out, text, text);
      if !matcher.Deaf() {
        matcher.Byte(c);
      } else {
        matcher.Ignore([c]);
      }
      if num != null {
        num.Byte(c);
      }
      output.WriteByte(c);
      SliceSnoc(input.bytes, start, input.offset - 1);
      KeptByte(output.writing, out, text, c);
      assert fed + text + [c] == fed + (text + [c]);
    }

    method TakeDigits(num: NumberStream.NumberMatch?, ghost fed: string, ghost out: string, ghost start: nat)
      requires Valid() && start <= input.offset && Token(num, fed, out, start)
      modifies input`limit, input`offset, output`len, output`sunk, output.buffer
      modifies matcher`slots, matcher`caseBytes, matcher`caseNeed, matcher`dateText, matcher`datesFailed, matcher`progress, matcher`fed
      modifies num, if num != null then {num.buffer} else {}
      ensures Valid() && (num != null ==> num.buffer == old(num.buffer) || fresh(num.buffer))
      ensures input.offset == JsonNumber.DigitsEnd(input.bytes, old(input.offset)) && Token(num, fed, out, start)
    {
      hide TextMatcher.Valid, NumberStream.NumberMatch.Valid, Passed, NoSegment, Output.Contents;
      while true
        invariant Valid() && start <= input.offset && Token(num, fed, out, start)
        invariant num != null ==> num.buffer == old(num.buffer) || fresh(num.buffer)
        invariant JsonNumber.DigitsEnd(input.bytes, input.offset) == JsonNumber.DigitsEnd(input.bytes, old(input.offset))
        decreases |input.bytes| - input.offset
      {
        var c := input.Peek();
        if c.None? || !IsDigit(c.value) {
          return;
        }
        input.offset := input.offset + 1;
        CopyTaken(num, fed, out, start);
      }
    }

    method Integer(num: NumberStream.NumberMatch?, ghost fed: string, ghost out: string, ghost start: nat) returns (ok: bool)
      requires Valid() && start <= input.offset && Token(num, fed, out, start)
      modifies input`limit, input`offset, output`len, output`sunk, output.buffer
      modifies matcher`slots, matcher`caseBytes, matcher`caseNeed, matcher`dateText, matcher`datesFailed, matcher`progress, matcher`fed
      modifies num, if num != null then {num.buffer} else {}
      ensures Valid() && (num != null ==> num.buffer == old(num.buffer) || fresh(num.buffer))
      ensures ok == IntegerEnd(input.bytes, old(input.offset)).Some?
      ensures ok ==> input.offset == IntegerEnd(input.bytes, old(input.offset)).value && Token(num, fed, out, start)
    {
      hide TextMatcher.Valid, NumberStream.NumberMatch.Valid, Passed, NoSegment, Output.Contents;
      var c := input.Peek();
      if c == Some('-') {
        input.offset := input.offset + 1;
        CopyTaken(num, fed, out, start);
        c := input.Peek();
      }
      if c.None? || !IsDigit(c.value) {
        return false;
      }
      if c == Some('0') {
        input.offset := input.offset + 1;
        CopyTaken(num, fed, out, start);
      } else {
        TakeDigits(num, fed, out, start);
      }
      ok := true;
    }

    method Fraction(num: NumberStream.NumberMatch?, ghost fed: string, ghost out: string, ghost start: nat) returns (ok: bool)
      requires Valid() && start <= input.offset && Token(num, fed, out, start)
      modifies input`limit, input`offset, output`len, output`sunk, output.buffer
      modifies matcher`slots, matcher`caseBytes, matcher`caseNeed, matcher`dateText, matcher`datesFailed, matcher`progress, matcher`fed
      modifies num, if num != null then {num.buffer} else {}
      ensures Valid() && (num != null ==> num.buffer == old(num.buffer) || fresh(num.buffer))
      ensures ok == FractionEnd(input.bytes, old(input.offset)).Some?
      ensures ok ==> input.offset == FractionEnd(input.bytes, old(input.offset)).value && Token(num, fed, out, start)
    {
      hide TextMatcher.Valid, NumberStream.NumberMatch.Valid, Passed, NoSegment, Output.Contents;
      var c := input.Peek();
      if c != Some('.') {
        return true;
      }
      input.offset := input.offset + 1;
      CopyTaken(num, fed, out, start);
      c := input.Peek();
      if c.None? || !IsDigit(c.value) {
        return false;
      }
      TakeDigits(num, fed, out, start);
      ok := true;
    }

    method Exponent(num: NumberStream.NumberMatch?, ghost fed: string, ghost out: string, ghost start: nat) returns (ok: bool)
      requires Valid() && start <= input.offset && Token(num, fed, out, start)
      modifies input`limit, input`offset, output`len, output`sunk, output.buffer
      modifies matcher`slots, matcher`caseBytes, matcher`caseNeed, matcher`dateText, matcher`datesFailed, matcher`progress, matcher`fed
      modifies num, if num != null then {num.buffer} else {}
      ensures Valid() && (num != null ==> num.buffer == old(num.buffer) || fresh(num.buffer))
      ensures ok == ExponentEnd(input.bytes, old(input.offset)).Some?
      ensures ok ==> input.offset == ExponentEnd(input.bytes, old(input.offset)).value && Token(num, fed, out, start)
    {
      hide TextMatcher.Valid, NumberStream.NumberMatch.Valid, Passed, NoSegment, Output.Contents;
      var c := input.Peek();
      if c.None? || !JsonNumber.IsMark(c.value) {
        return true;
      }
      input.offset := input.offset + 1;
      CopyTaken(num, fed, out, start);
      Sign(num, fed, out, start);
      c := input.Peek();
      if c.None? || !IsDigit(c.value) {
        return false;
      }
      TakeDigits(num, fed, out, start);
      ok := true;
    }

    method Sign(num: NumberStream.NumberMatch?, ghost fed: string, ghost out: string, ghost start: nat)
      requires Valid() && start <= input.offset && Token(num, fed, out, start)
      modifies input`limit, input`offset, output`len, output`sunk, output.buffer
      modifies matcher`slots, matcher`caseBytes, matcher`caseNeed, matcher`dateText, matcher`datesFailed, matcher`progress, matcher`fed
      modifies num, if num != null then {num.buffer} else {}
      ensures Valid() && (num != null ==> num.buffer == old(num.buffer) || fresh(num.buffer))
      ensures input.offset == (if PlusMinusAt(input.bytes, old(input.offset)) then old(input.offset) + 1 else old(input.offset))
      ensures Token(num, fed, out, start)
    {
      hide TextMatcher.Valid, NumberStream.NumberMatch.Valid, Passed, NoSegment, Output.Contents;
      var c := input.Peek();
      if c.Some? && JsonNumber.IsPlusMinus(c.value) {
        input.offset := input.offset + 1;
        CopyTaken(num, fed, out, start);
      }
    }

    /** src/lql_json_scan.c:4605-4691. */
    method NumberToken(num: NumberStream.NumberMatch?) returns (ok: bool)
      requires Valid()
      requires num != null ==> num.Valid() && num.fed == "" && num.buffer != output.buffer
      modifies input`limit, input`offset, output`len, output`sunk, output.buffer
      modifies matcher`slots, matcher`caseBytes, matcher`caseNeed, matcher`dateText, matcher`datesFailed, matcher`progress, matcher`fed
      modifies num, if num != null then {num.buffer} else {}
      ensures Valid() && ok == NumberEnd(input.bytes, old(input.offset)).Some?
      ensures ok ==>
        && input.offset == NumberEnd(input.bytes, old(input.offset)).value
        && var text := input.bytes[old(input.offset)..input.offset];
          && matcher.fed == old(matcher.fed) + text
          && output.Contents() == old(output.Contents()) + Kept(output.writing, text)
          && (num != null ==> num.Valid() && num.fed == text)
    {
      hide TextMatcher.Valid, NumberStream.NumberMatch.Valid, Passed, Kept, IntegerEnd, FractionEnd, ExponentEnd;
      ghost var fed, out, start := matcher.fed, output.Contents(), input.offset;
      PassedNothing();
      assert input.bytes[start..start] == "";
      ok := Integer(num, fed, out, start);
      if ok {
        ok := Fraction(num, fed, out, start);
        if ok {
          ok := Exponent(num, fed, out, start);
          if ok {
            PassedIs(fed, out, input.bytes[start..input.offset], input.bytes[start..input.offset]);
          }
        }
      }
    }

    /** src/lql_json_scan.c:4580-4591. */
    method LiteralWord(v: Value) returns (ok: bool)
      requires Valid() && (v.Null? || v.Bool?)
      modifies input`limit, input`offset, output`len, output`sunk, output.buffer
      modifies matcher`slots, matcher`caseBytes, matcher`caseNeed, matcher`dateText, matcher`datesFailed, matcher`progress, matcher`fed
      ensures Valid() && ok == At(input.bytes, old(input.offset), Literal(v))
      ensures ok ==> input.offset == old(input.offset) + |Literal(v)| && matcher.fed == old(matcher.fed) + Literal(v)
      ensures ok ==> output.Contents() == old(output.Contents()) + Kept(output.writing, Literal(v))
    {
      hide TextMatcher.Valid, Passed, Kept, Literal;
      ghost var fed, out, start := matcher.fed, output.Contents(), input.offset;
      var word := Literal(v);
      PassedNothing();
      assert input.bytes[start..start] == "";
      for i := 0 to |word|
        invariant Valid() && input.offset == start + i && input.bytes[start..input.offset] == word[..i]
        invariant Token(null, fed, out, start)
      {
        ok := input.TakeExpected(word[i]);
        if !ok {
          NotThere(input.bytes, start, word, i);
          return;
        }
        CopyTaken(null, fed, out, start);
        ByteMore(input.bytes, start, input.offset - 1, "");
        assert word[..i + 1] == word[..i] + [word[i]];
        assert input.bytes[start..input.offset] == input.bytes[start..input.offset - 1] + [word[i]];
      }
      assert word[..|word|] == word;
      PassedIs(fed, out, word, word);
      ok := true;
    }

    // -------------------------------------------------------------- scalars that terms look at

    /** Nothing is being matched. */
    ghost predicate Idle()
      reads this, input, output, matcher
    {
      Valid() && matcher.active == {} && matcher.dated == {} && !matcher.key && matcher.fed == ""
    }

    ghost predicate Known(active: set<nat>) { forall i :: i in active ==> i < |terms| }

    /** src/lql_json_scan.c:3740-3756 and 4281-4309: a string value. */
    method MatchedString(matches: set<nat>, depth: nat) returns (ok: bool)
      requires Idle() && Known(matches)
      modifies this`hits, input`limit, input`offset, output`len, output`sunk, output.buffer, matcher
      ensures Valid() && ok == (IsAt(input.bytes, old(input.offset), '"') && StringAt(input.bytes, old(input.offset) + 1).Some?)
      ensures ok ==> var r := StringAt(input.bytes, old(input.offset) + 1).value;
        && Idle() && input.offset == r.next && hits == old(hits) + KindHits(ranges, terms, matches, Text(r.chars), depth)
        && output.Contents() == old(output.Contents()) + Kept(output.writing, "\"" + CharsText(r.chars))
    {
      hide Fold, TextMatcher.Valid, StringAt, CharsText, Meaning, TextHits, DateHits, KindHits;
      var active := set i | i in matches && EndsAt(terms[i], depth) && OnStrings(terms[i].kind);
      var dated := set i | i in matches && EndsAt(terms[i], depth) && terms[i].kind == TemporalRange;
      Begin(active);
      matcher.StartDates(dated);
      ghost var start := input.offset + 1;
      ok := StringToken();
      if ok {
        ghost var chars := StringAt(input.bytes, start).value.chars;
        assert "" + Meaning(chars) == Meaning(chars);
        var found := FinishString(Meaning(chars));
        StringHits(ranges, terms, matches, active, dated, chars, depth);
        hits := hits + found;
      }
      matcher.StartDates({});
      Begin({});
    }

    /** lql_json_match_start for a value. */
    method Begin(active: set<nat>)
      requires Valid() && Known(active) && matcher.dated == {}
      modifies matcher
      ensures Valid() && matcher.active == active && matcher.dated == {} && matcher.fed == "" && !matcher.key && matcher.depth == 0
      ensures Fold(ranges, matcher.fed).pending == ""
    {
      MatcherIsWellFormed();
      matcher.Start(active, false, 0);
    }

    /** lql_json_match_complete for a value. */
    method Finish(ghost text: string) returns (found: set<nat>)
      requires Valid() && matcher.fed == text && !matcher.key && matcher.depth == 0
      ensures found == TextHits(ranges, terms, matcher.active, text)
    {
      hide Fold, Hit;
      found := matcher.Complete();
    }

    /** lql_json_match_complete and lql_json_temporal_range_complete for a string. */
    method FinishString(ghost text: string) returns (found: set<nat>)
      requires Valid() && matcher.fed == text && !matcher.key && matcher.depth == 0
      ensures found == TextHits(ranges, terms, matcher.active, text) + DateHits(terms, matcher.dated, text)
    {
      hide Fold, Hit, DateWithin, TextHits;
      found := Finish(text);
      var dates := matcher.CompleteDates();
      MatcherIsWellFormed();
      found := found + dates;
    }

    lemma MatcherIsWellFormed()
      requires Valid()
      ensures matcher.WellFormed()
    {
    }

    /** src/lql_json_scan.c:3797-3808 and 4359-4370: true, false or null. */
    method MatchedLiteral(matches: set<nat>, depth: nat, v: Value) returns (ok: bool)
      requires Idle() && Known(matches) && (v.Null? || v.Bool?)
      modifies this`hits, input`limit, input`offset, output`len, output`sunk, output.buffer, matcher
      ensures Valid() && ok == At(input.bytes, old(input.offset), Literal(v))
      ensures ok ==>
        && Idle() && input.offset == old(input.offset) + |Literal(v)|
        && hits == old(hits) + KindHits(ranges, terms, matches, v, depth)
        && output.Contents() == old(output.Contents()) + Kept(output.writing, Literal(v))
    {
      hide Fold, TextMatcher.Valid, Literal, TextHits, KindHits;
      var kind := if v.Null? then NullEq else BoolEq;
      var scalar := set i | i in matches && EndsAt(terms[i], depth) && terms[i].kind == kind;
      var textual := set i | i in matches && EndsAt(terms[i], depth) && Textual(terms[i].kind) && !v.Null?;
      Begin(textual);
      ok := LiteralWord(v);
      if ok {
        assert "" + Literal(v) == Literal(v);
        var found := Finish(Literal(v));
        var literal := set i | i in scalar && terms[i].value == Literal(v);
        LiteralHits(ranges, terms, matches, textual, scalar, v, depth);
        hits := hits + literal + found;
      }
      Begin({});
    }

    /** src/lql_json_scan.c:3809-3829 and 4371-4393: a number. */
    method MatchedNumber(matches: set<nat>, depth: nat) returns (ok: bool)
      requires Idle() && Known(matches)
      modifies this`hits, this`numberCapacity, input`limit, input`offset, output`len, output`sunk, output.buffer, matcher
      ensures Valid() && ok == NumberEnd(input.bytes, old(input.offset)).Some?
      ensures ok ==>
        && Idle() && input.offset == NumberEnd(input.bytes, old(input.offset)).value
        && var text := input.bytes[old(input.offset)..input.offset];
          && (ComparableAll(terms, text) ==> hits == old(hits) + KindHits(ranges, terms, matches, Number(text), depth))
          && output.Contents() == old(output.Contents()) + Kept(output.writing, text)
    {
      hide Fold, TextMatcher.Valid, TextHits, KindHits, ComparedHits, NumberEnd, ComparableAll;
      ghost var start := input.offset;
      var textual := set i | i in matches && EndsAt(terms[i], depth) && Textual(terms[i].kind);
      var numbers := set i | i in matches && EndsAt(terms[i], depth) && OnNumbers(terms[i].kind);
      Begin(textual);
      var compared;
      ok, compared := NumberCompared(numbers);
      if ok {
        ghost var text := input.bytes[start..input.offset];
        assert "" + text == text;
        var found := Finish(text);
        NumberKindHits(ranges, terms, matches, textual, numbers, text, depth);
        hits := hits + compared + found;
      }
      Begin({});
    }

    /** src/lql_json_scan.c:3811-3824: the token goes to the matcher and, when number terms are active, to their comparison. */
    method NumberCompared(numbers: set<nat>) returns (ok: bool, compared: set<nat>)
      requires Valid() && Known(numbers) && forall i :: i in numbers ==> OnNumbers(terms[i].kind)
      modifies this`numberCapacity, input`limit, input`offset, output`len, output`sunk, output.buffer
      modifies matcher`slots, matcher`caseBytes, matcher`caseNeed, matcher`dateText, matcher`datesFailed, matcher`progress, matcher`fed
      ensures Valid() && ok == NumberEnd(input.bytes, old(input.offset)).Some?
      ensures ok ==>
        && input.offset == NumberEnd(input.bytes, old(input.offset)).value
        && var text := input.bytes[old(input.offset)..input.offset];
          && matcher.fed == old(matcher.fed) + text
          && output.Contents() == old(output.Contents()) + Kept(output.writing, text)
          && (ComparableAll(terms, text) ==> compared == ComparedHits(terms, numbers, text))
    {
      hide Fold, TextMatcher.Valid, NumberStream.NumberMatch.Valid, NumberEnd, ComparableAll, JsonNumber.IsJsonNumber;
      hide Placed, NumberStream.JsonNumbers, Kept, NumberSatisfies;
      ghost var start := input.offset;
      compared := {};
      if numbers == {} {
        ok := NumberToken(null);
        return;
      }
      TermsAreWellFormed();
      var bounds, first := CollectBounds(terms, numbers);
      var num := new NumberStream.NumberMatch(bounds, numberCapacity);
      ok := NumberToken(num);
      if ok {
        JsonRoundTrip.NumberIsThere(input.bytes, start);
        compared := CompareTerms(num, numbers, first);
        numberCapacity := num.Capacity();
      }
    }

    lemma TermsAreWellFormed()
      requires Valid()
      ensures forall i :: 0 <= i < |terms| ==> WellFormedTerm(terms[i])
    {
    }

    /** src/lql_json_scan.c:1464-1646. */
    method CompareTerms(num: NumberStream.NumberMatch, numbers: set<nat>, first: seq<nat>) returns (compared: set<nat>)
      requires num.Valid() && JsonNumber.IsJsonNumber(num.fed) && |num.fed| <= NumberCompare.LONG_MAX
      requires Known(numbers) && (forall i :: i in numbers ==> OnNumbers(terms[i].kind))
      requires forall i :: 0 <= i < |terms| ==> WellFormedTerm(terms[i])
      requires Placed(terms, numbers, num.bounds, first)
      ensures ComparableAll(terms, num.fed) ==> compared == ComparedHits(terms, numbers, num.fed)
    {
      hide NumberStream.NumberMatch.Valid, NumberStream.JsonNumbers, NumberSatisfies, Comparable, JsonNumber.IsJsonNumber, BoundTexts, PlacedAt;
      compared := {};
      for i := 0 to |terms|
        invariant ComparableAll(terms, num.fed) ==> compared == set j | j in numbers && j < i && NumberSatisfies(terms[j], num.fed)
      {
        if i in numbers {
          var hit := NumberHit(num, terms[i], first[i]);
          if hit {
            compared := compared + {i};
          }
        }
      }
    }

    // -------------------------------------------------------------- keys

    /** src/lql_json_scan.c:2690-2712: object keys are not compared with wildcard segments. */
    function LiteralTerms(active: set<nat>, depth: nat): set<nat>
      requires forall i :: i in active ==> i < |terms|
    {
      if hasArrayTerms then set i | i in active && !(depth < |terms[i].path| && IsAnyWildcard(terms[i].path[depth])) else active
    }

    /** src/lql_json_scan.c:2827-2852. */
    function WildcardTerms(active: set<nat>, depth: nat): set<nat>
      requires forall i :: i in active ==> i < |terms|
    {
      if hasObjectWildcards then set i | i in active && depth < |terms[i].path| && IsObjectWildcard(terms[i].path[depth]) else {}
    }

    /** The terms that go on through a member with this key. */
    ghost function Through(active: set<nat>, depth: nat, key: string): set<nat>
      requires forall i :: i in active ==> i < |terms|
    {
      set i | i in active && depth < |terms[i].path| && KeyStep(terms[i].path[depth], key)
    }

    /** src/lql_json_scan.c:2886-2929: one segment against a key. */
    predicate SegmentMatches(term: Term, depth: nat, key: string) {
      depth < |term.path| &&
      (IsObjectWildcard(term.path[depth]) || (!IsArrayWildcard(term.path[depth]) && term.path[depth] == key))
    }

    lemma KeysAreThrough(active: set<nat>, depth: nat, key: string, compared: set<nat>)
      requires Valid() && Known(active)
      requires compared == (set i | i in LiteralTerms(active, depth) && KeyTarget(terms[i], depth) == Some(key))
            || compared == (set i | i in LiteralTerms(active, depth) && SegmentMatches(terms[i], depth, key))
      ensures compared + WildcardTerms(active, depth) == Through(active, depth, key)
    {
      hide TextMatcher.Valid;
    }

    /** src/lql_json_scan.c:3845-3961 without a writer: a key that the buffer holds whole and that has no escapes. */
    method TryPlainKey(active: set<nat>, depth: nat) returns (taken: bool, compared: set<nat>)
      requires Valid() && Known(active) && !output.writing && input.offset < input.limit
      modifies input`offset
      ensures Valid() && (!taken ==> input.offset == old(input.offset))
      ensures taken ==>
        && IsAt(input.bytes, old(input.offset), '"') && StringAt(input.bytes, old(input.offset) + 1).Some?
        && var r := StringAt(input.bytes, old(input.offset) + 1).value;
          && input.offset == r.next
          && compared + WildcardTerms(active, depth) == Through(active, depth, Meaning(r.chars))
    {
      hide TextMatcher.Valid, StringAt, Meaning, AllPlain, IsPlain, Decodes, LiteralTerms, WildcardTerms, Through, SegmentMatches;
      taken, compared := false, {};
      if input.bytes[input.offset] != '"' {
        return;
      }
      var start := input.offset + 1;
      var len := input.PlainSpan(start);
      var end := start + len;
      if end >= input.limit || input.bytes[end] != '"' {
        return;
      }
      var key := input.bytes[start..end];
      var literal := LiteralTerms(active, depth);
      LiteralsAreKnown(active, depth);
      if depth == 0 {
        compared := set i | i in literal && KeyTarget(terms[i], depth) == Some(key);
      } else {
        compared := set i | i in literal && SegmentMatches(terms[i], depth, key);
      }
      KeysAreThrough(active, depth, key, compared);
      DecodesSpan(input.bytes, start, len);
      DecodesToQuote(input.bytes, start, end, key);
      input.offset := end + 1;
      taken := true;
    }

    lemma LiteralsAreKnown(active: set<nat>, depth: nat)
      requires Known(active)
      ensures Known(LiteralTerms(active, depth))
    {
    }

    /** src/lql_json_scan.c:4139-4171: the terms and the capture keys whose path goes on through the member at the current key. */
    method ObjectKey(active: set<nat>, source: set<nat>, depth: nat) returns (ok: bool, matches: set<nat>, caught: set<nat>)
      requires Idle() && Known(active) && input.offset < input.limit
      modifies input`limit, input`offset, output`len, output`sunk, output.buffer, matcher
      ensures Valid() && ok == (IsAt(input.bytes, old(input.offset), '"') && StringAt(input.bytes, old(input.offset) + 1).Some?)
      ensures ok ==> var r := StringAt(input.bytes, old(input.offset) + 1).value;
        && Idle() && input.offset == r.next && matches == Through(active, depth, Meaning(r.chars))
        && caught == KeysAt(captures.keys, source, depth, Meaning(r.chars))
        && output.Contents() == old(output.Contents()) + Kept(output.writing, "\"" + CharsText(r.chars))
    {
      hide Fold, TextMatcher.Valid, StringAt, Meaning, CharsText, Kept, LiteralTerms, WildcardTerms, Through, Hit;
      ghost var start := input.offset + 1;
      var taken, compared := false, {};
      if !output.writing && source == {} {
        taken, compared := TryPlainKey(active, depth);
      }
      if taken {
        ok, matches, caught := true, compared + WildcardTerms(active, depth), {};
        NothingKept(output.Contents(), "\"" + CharsText(StringAt(input.bytes, start).value.chars));
        return;
      }
      ok, compared, caught := SlowKey(active, source, depth);
      matches := compared + WildcardTerms(active, depth);
    }

    lemma NothingKept(out: string, text: string)
      ensures out + Kept(false, text) == out
    {
    }

    /** The key goes through the matcher. */
    method SlowKey(active: set<nat>, source: set<nat>, depth: nat) returns (ok: bool, compared: set<nat>, caught: set<nat>)
      requires Idle() && Known(active)
      modifies input`limit, input`offset, output`len, output`sunk, output.buffer, matcher
      ensures Valid() && ok == (IsAt(input.bytes, old(input.offset), '"') && StringAt(input.bytes, old(input.offset) + 1).Some?)
      ensures ok ==> var r := StringAt(input.bytes, old(input.offset) + 1).value;
        && Idle() && input.offset == r.next
        && compared + WildcardTerms(active, depth) == Through(active, depth, Meaning(r.chars))
        && caught == KeysAt(captures.keys, source, depth, Meaning(r.chars))
        && output.Contents() == old(output.Contents()) + Kept(output.writing, "\"" + CharsText(r.chars))
    {
      hide Fold, TextMatcher.Valid, StringAt, Meaning, CharsText, Kept, LiteralTerms, WildcardTerms, Through, KeysAt;
      ghost var start := input.offset + 1;
      LiteralsAreKnown(active, depth);
      BeginKey(active, source, depth);
      NothingPending(ranges);
      ok := StringToken();
      compared, caught := {}, {};
      if ok {
        ghost var key := Meaning(StringAt(input.bytes, start).value.chars);
        assert "" + key == key;
        compared := matcher.Complete();
        assert compared == set i | i in LiteralTerms(active, depth) && KeyTarget(terms[i], depth) == Some(key);
        KeysAreThrough(active, depth, key, compared);
        caught := matcher.CompleteKeys();
      }
      Begin({});
    }

    /** lql_json_capture_start and lql_json_match_start_key. */
    method BeginKey(active: set<nat>, source: set<nat>, depth: nat)
      requires Idle() && Known(active)
      modifies matcher
      ensures Valid() && matcher.active == LiteralTerms(active, depth) && matcher.fed == "" && matcher.key && matcher.depth == depth
      ensures matcher.dated == {} && matcher.captured == source
    {
      hide Fold, LiteralTerms;
      LiteralsAreKnown(active, depth);
      MatcherIsWellFormed();
      matcher.StartKeys(source, depth);
      matcher.Start(LiteralTerms(active, depth), true, depth);
    }

    lemma NothingPending(ranges: seq<CaseRange>)
      ensures Fold(ranges, "").pending == ""
    {
    }

    // -------------------------------------------------------------- values

    ghost predicate Ready()
      reads this, input, output, matcher
    {
      Idle() && forall d :: 0 <= d < MAX_DEPTH ==> Known(pathActive[d])
    }

    /** src/lql_json_scan.c:4801-4830 for what is no container, with no term looking. */
    method PlainScalar() returns (ok: bool)
      requires Idle() && input.offset < |input.bytes| && input.bytes[input.offset] != '{' && input.bytes[input.offset] != '['
      modifies input`limit, input`offset, output`len, output`sunk, output.buffer, matcher
      ensures ok == ParseScalar(input.bytes, old(input.offset)).Some?
      ensures ok ==> var p := ParseScalar(input.bytes, old(input.offset)).value;
        && Idle() && input.offset == p.next
        && Applied(output.writing, old(Now()), Now(), Effect({}, true, Print(p.value), true))
    {
      hide Fold, TextMatcher.Valid, StringAt, NumberEnd, CharsText, Literal, At, NoSegment, Output.Contents, Applied, Kept;
      hide ParseScalar, Print;
      ghost var start, bytes, was := input.offset, input.bytes, Now();
      ScalarForms(bytes, start);
      var c := input.Peek();
      NothingPending(ranges);
      if c == Some('"') {
        ok := StringToken();
      } else if c == Some('t') || c == Some('f') || c == Some('n') {
        ok := LiteralWord(if c == Some('n') then Null else Bool(c == Some('t')));
      } else {
        ok := NumberToken(null);
      }
      matcher.Forget();
      if ok {
        TextApplied(output.writing, was, Now(), Print(ParseScalar(bytes, start).value.value));
      }
    }

    /** The same with the terms that the value's path completes. */
    method MatchedScalar(matches: set<nat>, depth: nat) returns (ok: bool)
      requires Idle() && Known(matches)
      requires input.offset < |input.bytes| && input.bytes[input.offset] != '{' && input.bytes[input.offset] != '['
      modifies this`hits, this`numberCapacity, input`limit, input`offset, output`len, output`sunk, output.buffer, matcher
      ensures ok == ParseScalar(input.bytes, old(input.offset)).Some?
      ensures ok ==> var p := ParseScalar(input.bytes, old(input.offset)).value;
        && Idle() && input.offset == p.next
        && Applied(output.writing, old(Now()), Now(),
                   Effect(KindHits(ranges, terms, matches, p.value, depth), true, Print(p.value), Exact(terms, p.value)))
    {
      hide Fold, TextMatcher.Valid, StringAt, NumberEnd, CharsText, Literal, At, KindHits, ComparableAll;
      var c := input.Peek();
      if c == Some('"') {
        ok := MatchedString(matches, depth);
      } else if c == Some('t') {
        ok := MatchedLiteral(matches, depth, Bool(true));
      } else if c == Some('f') {
        ok := MatchedLiteral(matches, depth, Bool(false));
      } else if c == Some('n') {
        ok := MatchedLiteral(matches, depth, Null);
      } else {
        ok := MatchedNumber(matches, depth);
      }
    }

    function ActiveAt(depth: nat): set<nat>
      requires |pathActive| == MAX_DEPTH
      reads this
    {
      if depth < MAX_DEPTH then pathActive[depth] else {}
    }

    /** The paths above are as they were. */
    ghost predicate SamePaths(was: seq<set<nat>>, depth: nat)
      reads this
    {
      PathsKept(pathActive, was, depth)
    }

    /** Down to the depth the capture keys are followed as they were, and these spans were found. */
    ghost predicate Captured(paths: seq<set<nat>>, spans: map<nat, Span>, depth: nat, found: map<nat, Span>)
      reads captures
    {
      captures.Valid() && PathsKept(captures.pathActive, paths, depth) && captures.spans == spans + found
    }

    /** The spans a value here holds. */
    ghost function CaughtHere(v: Value, depth: nat): map<nat, Span>
      requires captures.Valid() && output.Valid()
      reads this, captures, output, output.buffer
    {
      Caught(output.writing, captures.keys, captures.ActiveAt(depth), v, depth, |output.Contents()|)
    }

    method SetPath(depth: nat, active: set<nat>)
      requires Ready() && Known(active)
      modifies this`pathActive
      ensures Ready() && (depth > 0 ==> SamePaths(old(pathActive), depth - 1))
      ensures depth < MAX_DEPTH ==> pathActive[depth] == active
    {
      hide TextMatcher.Valid;
      if depth < MAX_DEPTH {
        pathActive := pathActive[depth := active];
      }
    }

    /** White space inside the record. */
    method Space()
      requires Ready()
      modifies input`limit, input`offset, input`compact
      ensures Ready() && input.offset == SpaceEnd(input.bytes, old(input.offset))
      ensures input.offset < |input.bytes|
              ==> Applied(output.writing, old(Now()), Now(), Spaces(input.bytes[old(input.offset)..input.offset]))
    {
      hide TextMatcher.Valid, SpaceEnd;
      ghost var was := Now();
      input.SkipSpace();
      assert old(input.offset) == input.offset <==> input.bytes[old(input.offset)..input.offset] == "";
      assert was.hits + {} == was.hits && was.emitted + "" == was.emitted;
    }

    method Write(text: string)
      requires Ready()
      modifies output`len, output`sunk, output.buffer
      ensures Ready() && Applied(output.writing, old(Now()), Now(), Emits(text))
    {
      hide TextMatcher.Valid;
      output.Write(text);
      assert hits + {} == hits;
    }

    /** src/lql_json_scan.c:4801-4830. */
    method ScanValue() returns (ok: bool)
      requires Ready() && captures.Valid()
      modifies this`hits, this`pathActive, this`numberCapacity, input, output`len, output`sunk, output.buffer, matcher, captures
      ensures var p := ParseValue(input.bytes, old(input.offset), old(input.depth));
        Accepts(ok, p.Some?, ShallowParsed(p, old(input.depth)), output.writing)
      ensures ok ==> var p := ParseValue(input.bytes, old(input.offset), old(input.depth)).value;
        && Ready() && input.offset == p.next && input.depth == old(input.depth) && SamePaths(old(pathActive), input.depth)
        && Applied(output.writing, old(Now()), Now(), ValueEffect(ranges, terms, old(ActiveAt(input.depth)), p.value, input.depth))
        && Captured(old(captures.pathActive), old(captures.spans), input.depth, old(CaughtHere(p.value, input.depth)))
      decreases |input.bytes| - input.offset, 0
    {
      hide TextMatcher.Valid, Applied, ParseContainer, ParseScalar, Shallow, ValueEffect, CaughtMembers;
      ghost var pos, bytes, depth, was := input.offset, input.bytes, input.depth, Now();
      var c := input.Peek();
      if c.None? {
        return false;
      }
      if c == Some('{') {
        ok := ScanObject();
      } else if c == Some('[') {
        ok := ScanArray();
      } else {
        ScalarIsShallow(bytes, pos, depth);
        PathsStart(captures.pathActive, depth);
        NothingCaught(captures.spans);
        ok := PlainScalar();
        if ok {
          ScalarEffect(ranges, terms, ActiveAt(depth), bytes, pos, depth, output.writing, was, Now());
        }
      }
    }

    /** The opening bracket and the space after it. */
    method Enter(braces: bool)
      requires Ready() && IsAt(input.bytes, input.offset, Open(braces)[0]) && input.depth < MAX_DEPTH
      modifies input, output`len, output`sunk, output.buffer
      ensures Ready() && input.depth == old(input.depth) + 1 && input.offset == SpaceEnd(input.bytes, old(input.offset) + 1)
      ensures input.offset < |input.bytes| ==>
        Applied(output.writing, old(Now()), Now(),
                Then(Emits(Open(braces)), Spaces(input.bytes[old(input.offset) + 1..input.offset])))
    {
      hide TextMatcher.Valid, NoSegment, Known, Output.Contents, Applied, SpaceEnd, Then;
      ghost var was := Now();
      input.depth := input.depth + 1;
      var ok := input.TakeExpected(Open(braces)[0]);
      Write(Open(braces));
      ghost var open, from := Now(), input.offset;
      Space();
      if input.offset < |input.bytes| {
        AppliedThen(output.writing, was, open, Now(), Emits(Open(braces)), Spaces(input.bytes[from..input.offset]));
      }
    }

    /** The closing bracket. */
    method Leave(braces: bool)
      requires Ready() && input.offset < input.limit && IsAt(input.bytes, input.offset, Closing(braces)[0]) && input.depth > 0
      modifies input`offset, input`depth, output`len, output`sunk, output.buffer
      ensures Ready() && input.depth == old(input.depth) - 1 && input.offset == old(input.offset) + 1
      ensures Applied(output.writing, old(Now()), Now(), Emits(Closing(braces)))
    {
      hide TextMatcher.Valid, NoSegment, Known, Output.Contents, Applied, SpaceEnd;
      input.offset := input.offset + 1;
      Write(Closing(braces));
      input.depth := input.depth - 1;
    }

    /** A comma or a colon and the space after it. */
    method Separator(c: char)
      requires Ready() && input.offset < input.limit && IsAt(input.bytes, input.offset, c)
      modifies input`offset, input`limit, input`compact, output`len, output`sunk, output.buffer
      ensures Ready() && input.offset == SpaceEnd(input.bytes, old(input.offset) + 1)
      ensures input.offset < |input.bytes| ==>
        Applied(output.writing, old(Now()), Now(), Then(Emits([c]), Spaces(input.bytes[old(input.offset) + 1..input.offset])))
    {
      hide TextMatcher.Valid, NoSegment, Known, Output.Contents, Applied, SpaceEnd, Then;
      ghost var was := Now();
      input.offset := input.offset + 1;
      Write([c]);
      ghost var wrote, from := Now(), input.offset;
      Space();
      if input.offset < |input.bytes| {
        AppliedThen(output.writing, was, wrote, Now(), Emits([c]), Spaces(input.bytes[from..input.offset]));
      }
    }

    /** After a member: the closing bracket, or a comma and the space after it. */
    method MembersTurn(braces: bool, depth: nat, ghost whole: Option<ParsedMembers>, ghost active: set<nat>, ghost q: nat,
                       ghost e: Effect, ghost index: nat, ghost was: Totals, ghost head: Totals)
      returns (ok: bool, more: bool, ghost next: Effect)
      requires Ready() && input.depth == depth + 1 && q <= |input.bytes|
      requires MembersRun(ranges, terms, active, whole, ParseMembers(input.bytes, q, depth + 1, braces), e, braces, depth, index, output.writing)
      requires ParseMember(input.bytes, q, depth + 1, braces).Some?
      requires var m := ParseMember(input.bytes, q, depth + 1, braces).value;
        && input.offset == m.next && (output.writing ==> Shallow(m.member.value, depth + 1))
        && (input.offset < |input.bytes| ==>
              && Applied(output.writing, was, head, e)
              && Applied(output.writing, head, Now(), MemberEffect(ranges, terms, active, m.member, depth, index)))
      modifies input, output`len, output`sunk, output.buffer
      ensures !ok ==> whole.None?
      ensures ok ==> Ready()
      ensures ok && !more ==>
        && IsAt(input.bytes, ParseMember(input.bytes, q, depth + 1, braces).value.next, Closing(braces)[0])
        && whole.Some? && input.offset == whole.value.next && input.depth == depth
        && (output.writing ==> ShallowMembers(whole.value.members, depth + 1))
        && Applied(output.writing, was, Now(), MembersEffect(ranges, terms, active, whole.value.members, braces, depth, 0))
      ensures ok && more ==> var m := ParseMember(input.bytes, q, depth + 1, braces).value;
        && IsAt(input.bytes, m.next, ',') && input.depth == depth + 1 && input.offset == SpaceEnd(input.bytes, m.next + 1)
        && MembersRun(ranges, terms, active, whole, ParseMembers(input.bytes, m.next + 1, depth + 1, braces), next, braces, depth, index + 1, output.writing)
        && (input.offset < |input.bytes| ==>
              && Applied(output.writing, was, Now(), next)
              && |output.Contents()| == |old(output.Contents())| + Size(output.writing, ","))
    {
      hide TextMatcher.Valid, NoSegment, Known, Output.Contents, Applied, ParseMembers, ParseMember, MembersRun, MembersEffect;
      hide MemberEffect, Then, Shallow, ShallowMembers, SpaceEnd;
      ghost var bytes, body := input.bytes, Now();
      MembersRunStuck(ranges, terms, active, whole, bytes, q, e, braces, depth, index, output.writing);
      next := e;
      var c := input.Peek();
      if c == Some(Closing(braces)[0]) {
        Leave(braces);
        LastScanned(ranges, terms, active, whole, bytes, q, e, braces, depth, index, output.writing, was, head, body, Now());
        return true, false, e;
      }
      if c != Some(',') {
        return false, false, e;
      }
      Separator(',');
      if input.offset < |bytes| {
        OutputSeparates(output.writing, body, Now(), ',', bytes[old(input.offset) + 1..input.offset]);
      }
      next := MoreScanned(ranges, terms, active, whole, bytes, q, e, braces, depth, index, output.writing, was, head, body, Now(), input.offset);
      ok, more := true, true;
    }

    /** src/lql_json_scan.c:4043-4081. */
    method ScanObject() returns (ok: bool)
      requires Ready() && captures.Valid() && IsAt(input.bytes, input.offset, '{')
      modifies this`hits, this`pathActive, this`numberCapacity, input, output`len, output`sunk, output.buffer, matcher, captures
      ensures var p := ParseContainer(input.bytes, old(input.offset), old(input.depth));
        Accepts(ok, p.Some?, ShallowParsed(p, old(input.depth)), output.writing)
      ensures ok ==> var p := ParseContainer(input.bytes, old(input.offset), old(input.depth)).value;
        && Ready() && input.offset == p.next && input.depth == old(input.depth) && SamePaths(old(pathActive), input.depth)
        && Applied(output.writing, old(Now()), Now(), ValueEffect(ranges, terms, old(ActiveAt(input.depth)), p.value, input.depth))
        && Captured(old(captures.pathActive), old(captures.spans), input.depth, old(CaughtHere(p.value, input.depth)))
      decreases |input.bytes| - input.offset - 1, 5
    {
      hide TextMatcher.Valid, NoSegment, Known, Output.Contents, Applied, ParseContainer, ParseMembers, MembersEffect, ValueEffect;
      hide Shallow, ShallowMembers, SpaceEnd, Then, CaughtMembers, PathsKept;
      ghost var pos, bytes, was, active := input.offset, input.bytes, Now(), ActiveAt(input.depth);
      ContainerCases(bytes, pos, input.depth, true);
      if input.depth == MAX_DEPTH {
        return false;
      }
      var depth := input.depth;
      Enter(true);
      ghost var inner := Now();
      var c := input.Peek();
      if c.None? {
        NoMembersAtEnd(bytes, pos + 1, depth + 1, true);
        return false;
      }
      if c == Some('}') {
        ghost var space := bytes[pos + 1..input.offset];
        PathsStart(pathActive, depth);
        PathsStart(captures.pathActive, depth);
        NothingCaught(captures.spans);
        Leave(true);
        EmptyScanned(ranges, terms, active, true, space, depth, output.writing, was, inner, Now());
        return true;
      }
      OutputOpens(output.writing, was, inner, true, bytes[pos + 1..input.offset]);
      ok := ObjectMembers(depth, pos + 1);
      if ok {
        NestScanned(ranges, terms, active, true, bytes, pos, depth, output.writing, was, inner, Now());
      }
    }

    /** The loop of src/lql_json_scan.c:4082-4422; from is just after the opening brace. */
    method ObjectMembers(depth: nat, ghost from: nat) returns (ok: bool)
      requires Ready() && captures.Valid() && depth < MAX_DEPTH && input.depth == depth + 1
      requires from <= input.offset < |input.bytes| && input.offset == SpaceEnd(input.bytes, from)
      modifies this`hits, this`pathActive, this`numberCapacity, input, output`len, output`sunk, output.buffer, matcher, captures
      ensures var p := ParseMembers(input.bytes, from, depth + 1, true);
        Accepts(ok, p.Some?, ShallowParsedMembers(p, depth + 1), output.writing)
      ensures ok ==> var p := ParseMembers(input.bytes, from, depth + 1, true).value;
        && Ready() && input.offset == p.next && input.depth == depth && SamePaths(old(pathActive), depth)
        && Applied(output.writing, old(Now()), Now(), MembersEffect(ranges, terms, old(pathActive)[depth], p.members, true, depth, 0))
        && Captured(old(captures.pathActive), old(captures.spans), depth,
                    old(CaughtMembers(output.writing, captures.keys, captures.pathActive[depth], p.members, depth, 0, |output.Contents()|)))
      decreases |input.bytes| - from, 4
    {
      hide TextMatcher.Valid, NoSegment, Known, Output.Contents, Applied, ParseMembers, ParseMember, MembersRun, MembersEffect;
      hide MemberEffect, Then, Shallow, ShallowMembers, SpaceEnd, Known, PathsKept, CaptureRun, CaughtMembers, CaughtMember, NextMember;
      ghost var q, index, e, was, bytes := from, 0, NOTHING, Now(), input.bytes;
      ghost var whole, active := ParseMembers(bytes, from, depth + 1, true), pathActive[depth];
      MembersRunStarts(ranges, terms, active, whole, true, depth, output.writing);
      NothingApplied(output.writing, was);
      PathsStart(pathActive, depth);
      PathsStart(captures.pathActive, depth);
      ghost var source, text := captures.pathActive[depth], |output.Contents()|;
      CaptureRunStarts(output.writing, captures.keys, source, whole, depth, text, captures.spans);
      while true
        invariant Ready() && input.depth == depth + 1 && PathsKept(pathActive, old(pathActive), depth)
        invariant pathActive[depth] == active && from <= q <= |bytes| && input.offset == SpaceEnd(bytes, q)
        invariant input.offset < |bytes| ==> Applied(output.writing, was, Now(), e)
        invariant MembersRun(ranges, terms, active, whole, ParseMembers(bytes, q, depth + 1, true), e, true, depth, index, output.writing)
        invariant captures.Valid() && PathsKept(captures.pathActive, old(captures.pathActive), depth) && captures.pathActive[depth] == source
        invariant input.offset < |bytes| ==>
          CaptureRun(output.writing, captures.keys, source, whole, ParseMembers(bytes, q, depth + 1, true), depth, index, text,
                     |output.Contents()|, old(captures.spans), captures.spans)
        decreases |bytes| - q
      {
        MembersRunStuck(ranges, terms, active, whole, bytes, q, e, true, depth, index, output.writing);
        MemberStarts(bytes, q, depth + 1, true);
        ghost var head, paths, followed, spans := Now(), pathActive, captures.pathActive, captures.spans;
        ok := ObjectMember(depth, q, index);
        if !ok {
          return;
        }
        PathsKeep(pathActive, paths, old(pathActive), depth);
        PathsAt(pathActive, paths, depth);
        PathsKeep(captures.pathActive, followed, old(captures.pathActive), depth);
        PathsAt(captures.pathActive, followed, depth);
        ghost var m := ParseMember(bytes, q, depth + 1, true).value;
        var more;
        ghost var body := Now();
        ok, more, e := MembersTurn(true, depth, whole, active, q, e, index, was, head);
        if !ok {
          return;
        }
        if !more {
          CaptureRunEnds(output.writing, captures.keys, source, whole, bytes, q, true, depth, index, text, |head.emitted|, old(captures.spans), spans);
          return;
        }
        CaptureRunGoesOn(output.writing, captures.keys, source, whole, bytes, q, true, depth, index, text, |head.emitted|, old(captures.spans), spans);
        if input.offset < |bytes| {
          NextMemberAt(output.writing, ranges, terms, active, m.member, depth, index, head, body, |output.Contents()|);
        }
        q, index := m.next + 1, index + 1;
      }
    }

    /** src/lql_json_scan.c:4083-4404: a key, its value, and the space after it. */
    method ObjectMember(depth: nat, ghost from: nat, ghost index: nat) returns (ok: bool)
      requires Ready() && captures.Valid() && depth < MAX_DEPTH && input.depth == depth + 1
      requires from <= |input.bytes| && input.offset == SpaceEnd(input.bytes, from)
      modifies this`hits, this`pathActive, this`numberCapacity, input, output`len, output`sunk, output.buffer, matcher, captures
      ensures var p := ParseMember(input.bytes, from, depth + 1, true);
        Accepts(ok, p.Some?, ShallowParsedMember(p, depth + 1), output.writing)
      ensures ok ==> var p := ParseMember(input.bytes, from, depth + 1, true).value;
        && Ready() && input.offset == p.next && input.depth == depth + 1 && SamePaths(old(pathActive), depth)
        && (input.offset < |input.bytes| ==>
              Applied(output.writing, old(Now()), Now(), MemberEffect(ranges, terms, old(pathActive)[depth], p.member, depth, index)))
        && Captured(old(captures.pathActive), old(captures.spans), depth,
                    old(CaughtMember(output.writing, captures.keys, captures.pathActive[depth], p.member, depth, index, |output.Contents()|)))
      decreases |input.bytes| - from, 3
    {
      hide TextMatcher.Valid, NoSegment, Output.Contents, Applied, ParseValue, ParseKey, MatchedEffect, KeyEffect;
      hide MemberEffect, Stepped, Shallow, SpaceEnd, CaughtValue, CaughtMember, SteppedKeys, PathsKept;
      ghost var bytes, was, active, source := input.bytes, Now(), pathActive[depth], captures.pathActive[depth];
      ghost var start := input.offset;
      var matches, caught;
      ok, matches, caught := MemberKey(depth, index);
      if !ok {
        return;
      }
      ghost var k := ParseKey(bytes, start, true).value;
      ghost var keyed := Now();
      ok := MemberValue(matches, caught, depth, true);
      if !ok {
        return;
      }
      ghost var valued := Now();
      Space();
      MemberScanned(ranges, terms, active, bytes, from, true, depth, index, output.writing, was, keyed, valued, Now());
      MemberCaught(output.writing, captures.keys, source, ParseMember(bytes, from, depth + 1, true).value.member, depth, index, was, keyed);
    }

    /** src/lql_json_scan.c:1787-1795. */
    method OutputOffset() returns (at: nat)
      requires output.Valid()
      ensures at == |output.Contents()|
    {
      at := |output.sunk| + output.len;
    }

    /** src/lql_json_scan.c:4239-4271 and 4507-4533: the terms and keys that go on below the value. */
    method StartValue(matches: set<nat>, below: set<nat>, depth: nat, keyed: bool)
      requires Ready() && captures.Valid() && Known(matches)
      modifies this`pathActive, input`limit, captures`pathActive
      ensures Ready() && SamePaths(old(pathActive), depth)
      ensures captures.Valid() && PathsKept(captures.pathActive, old(captures.pathActive), depth)
      ensures IsAt(input.bytes, input.offset, '{') || IsAt(input.bytes, input.offset, '[') ==>
                Below(matches, depth) && (depth + 1 < MAX_DEPTH ==> captures.ActiveAt(depth + 1) == below)
      ensures below == {} ==> captures.ActiveAt(depth + 1) == {}
    {
      hide TextMatcher.Valid, NoSegment;
      var c := input.Peek();
      var nested := c == Some('{') || c == Some('[');
      SetPath(depth + 1, if !keyed then matches else if nested then Descendants(matches, depth) else {});
      captures.SetPath(depth + 1, if nested || !keyed then below else {});
    }

    /** src/lql_json_scan.c:4383-4399 and 4543-4556: the spans of the keys that end here; nothing is followed any more. */
    method EndValue(here: set<nat>, start: nat, depth: nat)
      requires Ready() && captures.Valid() && start <= |output.Contents()| && forall i :: i in here ==> i < |captures.keys|
      modifies this`pathActive, captures`pathActive, captures`spans
      ensures Ready() && SamePaths(old(pathActive), depth)
      ensures captures.Valid() && PathsKept(captures.pathActive, old(captures.pathActive), depth)
      ensures captures.spans == old(captures.spans) + Everywhere(here, Span(start, |output.Contents()| - start))
    {
      hide TextMatcher.Valid, NoSegment, Everywhere;
      var end := OutputOffset();
      captures.Mark(here, start, end);
      ForgetBelow(depth);
    }

    /** src/lql_json_scan.c:4395-4399 and 4446-4449. */
    method ForgetBelow(depth: nat)
      requires Ready() && captures.Valid()
      modifies this`pathActive, captures`pathActive
      ensures Ready() && SamePaths(old(pathActive), depth)
      ensures captures.Valid() && PathsKept(captures.pathActive, old(captures.pathActive), depth)
    {
      hide TextMatcher.Valid, NoSegment;
      SetPath(depth + 1, {});
      captures.SetPath(depth + 1, {});
    }

    /** src/lql_json_scan.c:4239-4400 and 4507-4558: the value of a member or element. */
    method MemberValue(matches: set<nat>, caught: set<nat>, depth: nat, keyed: bool) returns (ok: bool)
      requires Ready() && captures.Valid() && Known(matches) && input.depth == depth + 1
      modifies this`hits, this`pathActive, this`numberCapacity, input, output`len, output`sunk, output.buffer, matcher, captures
      ensures var p := ParseValue(input.bytes, old(input.offset), depth + 1);
        Accepts(ok, p.Some?, ShallowParsed(p, depth + 1), output.writing)
      ensures ok ==> var p := ParseValue(input.bytes, old(input.offset), depth + 1).value;
        && Ready() && input.offset == p.next && input.depth == depth + 1 && SamePaths(old(pathActive), depth)
        && Applied(output.writing, old(Now()), Now(), MatchedEffect(ranges, terms, matches, p.value, depth))
        && Captured(old(captures.pathActive), old(captures.spans), depth,
                    old(CaughtValue(output.writing, captures.keys, caught, p.value, depth, |output.Contents()|)))
      decreases |input.bytes| - input.offset, 2
    {
      hide TextMatcher.Valid, NoSegment, Output.Contents, Applied, ParseValue, MatchedEffect, Shallow, Caught, CaughtValue;
      hide Ends, GoOn, Everywhere, Print, Strip, Below, PathsKept;
      ghost var bytes, pos, was, spans := input.bytes, input.offset, Now(), captures.spans;
      var here, below := Ends(captures.keys, caught, depth), GoOn(captures.keys, caught, depth);
      StartValue(matches, below, depth, keyed);
      ghost var source, paths, followed := captures.ActiveAt(depth + 1), pathActive, captures.pathActive;
      var start := OutputOffset();
      ok := MatchedValue(matches, depth, keyed && here == {} && below == {});
      ParseValueStarts(bytes, pos, depth + 1);
      if !ok {
        return;
      }
      ghost var scanned, read, searched := captures.spans, pathActive, captures.pathActive;
      OutputTakes(output.writing, ranges, terms, matches, ParseValue(bytes, pos, depth + 1).value.value, depth, was, Now());
      EndValue(here, start, depth);
      ValueCaught(output.writing, captures.keys, caught, source, bytes, pos, depth, start, spans, scanned, captures.spans);
      PathsKeepThrice(pathActive, read, paths, old(pathActive), depth);
      PathsKeepThrice(captures.pathActive, searched, followed, old(captures.pathActive), depth);
    }

    /** src/lql_json_scan.c:2662-2688: the terms whose path goes on below the member. */
    function Descendants(matches: set<nat>, depth: nat): set<nat>
      requires forall i :: i in matches ==> i < |terms|
    {
      set i | i in matches && depth + 1 < |terms[i].path|
    }

    /** A colon and the white space around it. */
    method Colon() returns (ok: bool, ghost colon: nat)
      requires Ready()
      modifies input`limit, input`offset, input`compact, output`len, output`sunk, output.buffer
      ensures old(input.offset) <= colon == SpaceEnd(input.bytes, old(input.offset)) <= |input.bytes| && ok == IsAt(input.bytes, colon, ':')
      ensures ok ==> Ready() && colon < input.offset <= |input.bytes| && input.offset == SpaceEnd(input.bytes, colon + 1)
      ensures ok && input.offset < |input.bytes| ==>
        Applied(output.writing, old(Now()), Now(),
                Then(Spaces(input.bytes[old(input.offset)..colon]), Then(Emits(":"), Spaces(input.bytes[colon + 1..input.offset]))))
    {
      hide TextMatcher.Valid, NoSegment, Known, Output.Contents, Applied, SpaceEnd, Then;
      ghost var was, from := Now(), input.offset;
      Space();
      ghost var spaced := Now();
      colon := input.offset;
      var c := input.Peek();
      if c != Some(':') {
        return false, colon;
      }
      Separator(':');
      ok := true;
      if input.offset < |input.bytes| {
        AppliedThen(output.writing, was, spaced, Now(), Spaces(input.bytes[from..colon]),
                    Then(Emits(":"), Spaces(input.bytes[colon + 1..input.offset])));
      }
    }

    /** src/lql_json_scan.c:4122-4190: the key, and the colon with the space around it. */
    method MemberKey(depth: nat, ghost index: nat) returns (ok: bool, matches: set<nat>, caught: set<nat>)
      requires Ready() && captures.Valid() && depth < MAX_DEPTH
      modifies input, output`len, output`sunk, output.buffer, matcher
      ensures ok == ParseKey(input.bytes, old(input.offset), true).Some?
      ensures ok ==> var k := ParseKey(input.bytes, old(input.offset), true).value;
        && Ready() && input.offset == k.next && input.depth == old(input.depth) && Known(matches)
        && matches == Stepped(terms, pathActive[depth], k.key, depth, index)
        && caught == SteppedKeys(captures.keys, captures.pathActive[depth], k.key, depth, index)
        && (input.offset < |input.bytes| ==> Applied(output.writing, old(Now()), Now(), KeyEffect(k.key)))
    {
      hide TextMatcher.Valid, NoSegment, Output.Contents, Applied, StringAt, KeyEffect, Stepped, SteppedKeys, KeysAt, Through, SpaceEnd, CharsText, Meaning;
      ghost var bytes, start, was, active := input.bytes, input.offset, Now(), pathActive[depth];
      matches, caught := {}, {};
      var c := input.Peek();
      if c != Some('"') {
        return false, {}, {};
      }
      ok, matches, caught := ObjectKey(pathActive[depth], captures.pathActive[depth], depth);
      if !ok {
        return;
      }
      ghost var chars, t := StringAt(bytes, start + 1).value.chars, input.offset;
      ghost var quoted := Now();
      KeyApplied(output.writing, was, quoted, "\"" + CharsText(chars));
      ghost var colon;
      ok, colon := Colon();
      if !ok {
        return;
      }
      KeysAreStepped(captures.keys, captures.pathActive[depth], depth, chars, bytes[t..colon], bytes[colon + 1..input.offset], index);
      ThroughIsStepped(active, depth, index, chars, bytes[t..colon], bytes[colon + 1..input.offset]);
      if input.offset < |bytes| {
        KeyScanned(output.writing, was, quoted, Now(), chars, bytes[t..colon], bytes[colon + 1..input.offset]);
      }
    }

    lemma ThroughIsStepped(active: set<nat>, depth: nat, index: nat, chars: Chars, colon: string, gap: string)
      requires Known(active) && AreItems(chars)
      ensures Through(active, depth, Meaning(chars)) == Stepped(terms, active, Named(chars, colon, gap), depth, index)
      ensures Known(Through(active, depth, Meaning(chars)))
    {
    }

    /** src/lql_json_scan.c:4424-4468. */
    method ScanArray() returns (ok: bool)
      requires Ready() && captures.Valid() && IsAt(input.bytes, input.offset, '[')
      modifies this`hits, this`pathActive, this`numberCapacity, input, output`len, output`sunk, output.buffer, matcher, captures
      ensures var p := ParseContainer(input.bytes, old(input.offset), old(input.depth));
        Accepts(ok, p.Some?, ShallowParsed(p, old(input.depth)), output.writing)
      ensures ok ==> var p := ParseContainer(input.bytes, old(input.offset), old(input.depth)).value;
        && Ready() && input.offset == p.next && input.depth == old(input.depth) && SamePaths(old(pathActive), input.depth)
        && Applied(output.writing, old(Now()), Now(), ValueEffect(ranges, terms, old(ActiveAt(input.depth)), p.value, input.depth))
        && Captured(old(captures.pathActive), old(captures.spans), input.depth, old(CaughtHere(p.value, input.depth)))
      decreases |input.bytes| - input.offset - 1, 5
    {
      hide TextMatcher.Valid, NoSegment, Known, Output.Contents, Applied, ParseContainer, ParseMembers, MembersEffect, ValueEffect;
      hide Shallow, ShallowMembers, SpaceEnd, Then, CaughtMembers, PathsKept;
      ghost var pos, bytes, was, active := input.offset, input.bytes, Now(), ActiveAt(input.depth);
      ContainerCases(bytes, pos, input.depth, false);
      if input.depth == MAX_DEPTH {
        return false;
      }
      var depth := input.depth;
      ForgetBelow(depth);
      ghost var paths, followed := pathActive, captures.pathActive;
      PathsAt(paths, old(pathActive), depth);
      PathsAt(followed, old(captures.pathActive), depth);
      Enter(false);
      ghost var inner := Now();
      var c := input.Peek();
      if c.None? {
        NoMembersAtEnd(bytes, pos + 1, depth + 1, false);
        return false;
      }
      if c == Some(']') {
        ghost var space := bytes[pos + 1..input.offset];
        NothingCaught(captures.spans);
        Leave(false);
        EmptyScanned(ranges, terms, active, false, space, depth, output.writing, was, inner, Now());
        return true;
      }
      if input.depth >= MAX_DEPTH {
        return false;
      }
      OutputOpens(output.writing, was, inner, false, bytes[pos + 1..input.offset]);
      ok := ArrayElements(depth, pos + 1);
      if ok {
        PathsKeep(pathActive, paths, old(pathActive), depth);
        PathsKeep(captures.pathActive, followed, old(captures.pathActive), depth);
        NestScanned(ranges, terms, active, false, bytes, pos, depth, output.writing, was, inner, Now());
      }
    }

    /** The loop of src/lql_json_scan.c:4469-4577; from is just after the opening bracket. */
    method ArrayElements(depth: nat, ghost from: nat) returns (ok: bool)
      requires Ready() && captures.Valid() && depth + 1 < MAX_DEPTH && input.depth == depth + 1
      requires from <= input.offset < |input.bytes| && input.offset == SpaceEnd(input.bytes, from)
      modifies this`hits, this`pathActive, this`numberCapacity, input, output`len, output`sunk, output.buffer, matcher, captures
      ensures var p := ParseMembers(input.bytes, from, depth + 1, false);
        Accepts(ok, p.Some?, ShallowParsedMembers(p, depth + 1), output.writing)
      ensures ok ==> var p := ParseMembers(input.bytes, from, depth + 1, false).value;
        && Ready() && input.offset == p.next && input.depth == depth && SamePaths(old(pathActive), depth)
        && Applied(output.writing, old(Now()), Now(), MembersEffect(ranges, terms, old(pathActive)[depth], p.members, false, depth, 0))
        && Captured(old(captures.pathActive), old(captures.spans), depth,
                    old(CaughtMembers(output.writing, captures.keys, captures.pathActive[depth], p.members, depth, 0, |output.Contents()|)))
      decreases |input.bytes| - from, 4
    {
      hide TextMatcher.Valid, NoSegment, Output.Contents, Applied, ParseMembers, ParseMember, MembersRun, MembersEffect;
      hide MemberEffect, Then, Shallow, ShallowMembers, SpaceEnd, Known, PathsKept, CaptureRun, CaughtMembers, CaughtMember, NextMember;
      ghost var q, e, was, bytes := from, NOTHING, Now(), input.bytes;
      ghost var whole := ParseMembers(bytes, from, depth + 1, false);
      var active, index := pathActive[depth], 0;
      MembersRunStarts(ranges, terms, active, whole, false, depth, output.writing);
      NothingApplied(output.writing, was);
      PathsStart(pathActive, depth);
      PathsStart(captures.pathActive, depth);
      var source := captures.pathActive[depth];
      ghost var text := |output.Contents()|;
      CaptureRunStarts(output.writing, captures.keys, source, whole, depth, text, captures.spans);
      while true
        invariant Ready() && input.depth == depth + 1 && PathsKept(pathActive, old(pathActive), depth)
        invariant pathActive[depth] == active && from <= q <= |bytes| && input.offset == SpaceEnd(bytes, q) && 0 <= index <= q
        invariant input.offset < |bytes| ==> Applied(output.writing, was, Now(), e)
        invariant MembersRun(ranges, terms, active, whole, ParseMembers(bytes, q, depth + 1, false), e, false, depth, index, output.writing)
        invariant captures.Valid() && PathsKept(captures.pathActive, old(captures.pathActive), depth) && captures.pathActive[depth] == source
        invariant input.offset < |bytes| ==>
          CaptureRun(output.writing, captures.keys, source, whole, ParseMembers(bytes, q, depth + 1, false), depth, index, text,
                     |output.Contents()|, old(captures.spans), captures.spans)
        decreases |bytes| - q
      {
        MembersRunStuck(ranges, terms, active, whole, bytes, q, e, false, depth, index, output.writing);
        MemberStarts(bytes, q, depth + 1, false);
        ghost var head, paths, followed, spans := Now(), pathActive, captures.pathActive, captures.spans;
        ok := ArrayElement(active, source, depth, q, index);
        if !ok {
          return;
        }
        PathsKeep(pathActive, paths, old(pathActive), depth);
        PathsAt(pathActive, paths, depth);
        PathsKeep(captures.pathActive, followed, old(captures.pathActive), depth);
        PathsAt(captures.pathActive, followed, depth);
        ghost var m := ParseMember(bytes, q, depth + 1, false).value;
        var more;
        ghost var body := Now();
        ok, more, e := MembersTurn(false, depth, whole, active, q, e, index, was, head);
        if !ok {
          return;
        }
        if !more {
          CaptureRunEnds(output.writing, captures.keys, source, whole, bytes, q, false, depth, index, text, |head.emitted|, old(captures.spans), spans);
          return;
        }
        CaptureRunGoesOn(output.writing, captures.keys, source, whole, bytes, q, false, depth, index, text, |head.emitted|, old(captures.spans), spans);
        if input.offset < |bytes| {
          NextMemberAt(output.writing, ranges, terms, active, m.member, depth, index, head, body, |output.Contents()|);
        }
        q := m.next + 1;
        index := index + 1;
      }
    }

    /** src/lql_json_scan.c:4470-4565: an element and the space after it. */
    method ArrayElement(active: set<nat>, source: set<nat>, depth: nat, ghost from: nat, index: nat) returns (ok: bool)
      requires Ready() && captures.Valid() && depth + 1 < MAX_DEPTH && input.depth == depth + 1 && Known(active)
      requires from <= |input.bytes| && input.offset == SpaceEnd(input.bytes, from) && index <= from
      modifies this`hits, this`pathActive, this`numberCapacity, input, output`len, output`sunk, output.buffer, matcher, captures
      ensures var p := ParseMember(input.bytes, from, depth + 1, false);
        Accepts(ok, p.Some?, ShallowParsedMember(p, depth + 1), output.writing)
      ensures ok ==> var p := ParseMember(input.bytes, from, depth + 1, false).value;
        && Ready() && input.offset == p.next && input.depth == depth + 1 && SamePaths(old(pathActive), depth)
        && (input.offset < |input.bytes| ==>
              Applied(output.writing, old(Now()), Now(), MemberEffect(ranges, terms, active, p.member, depth, index)))
        && Captured(old(captures.pathActive), old(captures.spans), depth,
                    old(CaughtMember(output.writing, captures.keys, source, p.member, depth, index, |output.Contents()|)))
      decreases |input.bytes| - from, 3
    {
      hide TextMatcher.Valid, NoSegment, Output.Contents, Applied, ParseValue, MatchedEffect, KeyEffect;
      hide MemberEffect, Stepped, Shallow, SpaceEnd, IndexStep, CaughtValue, CaughtMember, SteppedKeys, PathsKept;
      ghost var bytes, was := input.bytes, Now();
      var element := ElementTerms(active, depth, index);
      var caught := captures.MatchIndex(source, depth, index);
      NoKeyApplied(output.writing, was);
      ok := MemberValue(element, caught, depth, false);
      if !ok {
        return;
      }
      ghost var valued := Now();
      Space();
      MemberScanned(ranges, terms, active, bytes, from, false, depth, index, output.writing, was, was, valued, Now());
      MemberCaught(output.writing, captures.keys, source, ParseMember(bytes, from, depth + 1, false).value.member, depth, index, was, was);
    }

    /** src/lql_json_scan.c:2877-2907: the terms that go on through the element at this index. */
    method ElementTerms(active: set<nat>, depth: nat, index: nat) returns (element: set<nat>)
      requires Known(active) && index <= SIZE_MAX
      ensures element == Stepped(terms, active, NoKey, depth, index) && Known(element)
    {
      hide IndexStep;
      element := {};
      for i := 0 to |terms|
        invariant element == set j | j in active && j < i && depth < |terms[j].path| && IndexStep(terms[j].path[depth], index)
      {
        if i in active && depth < |terms[i].path| {
          var hit := SegmentMatchesIndex(terms[i].path[depth], index);
          if hit {
            element := element + {i};
          }
        }
      }
    }

    /** src/lql_json_scan.c:3685-3842 and 4281-4393: a value that a step of the matching terms leads to. */
    method MatchedValue(matches: set<nat>, depth: nat, mayskip: bool) returns (ok: bool)
      requires Ready() && captures.Valid() && Known(matches) && input.depth == depth + 1
      requires mayskip ==> captures.ActiveAt(depth + 1) == {}
      requires IsAt(input.bytes, input.offset, '{') || IsAt(input.bytes, input.offset, '[') ==> Below(matches, depth)
      modifies this`hits, this`pathActive, this`numberCapacity, input, output`len, output`sunk, output.buffer, matcher, captures
      ensures var p := ParseValue(input.bytes, old(input.offset), depth + 1);
        Accepts(ok, p.Some?, ShallowParsed(p, depth + 1), output.writing)
      ensures ok ==> var p := ParseValue(input.bytes, old(input.offset), depth + 1).value;
        && Ready() && input.offset == p.next && input.depth == depth + 1 && SamePaths(old(pathActive), depth)
        && Applied(output.writing, old(Now()), Now(), MatchedEffect(ranges, terms, matches, p.value, depth))
        && Captured(old(captures.pathActive), old(captures.spans), depth, old(CaughtHere(p.value, depth + 1)))
      decreases |input.bytes| - input.offset, 1
    {
      hide TextMatcher.Valid, Applied, ParseValue, ParseScalar, Shallow, ValueEffect, MatchedEffect, NoSegment, Output.Contents, CaughtMembers;
      ghost var pos, bytes, was := input.offset, input.bytes, Now();
      var c := input.Peek();
      ParseValueStarts(bytes, pos, depth + 1);
      if c.None? {
        return false;
      }
      PathsStart(captures.pathActive, depth);
      NothingCaught(captures.spans);
      if matches == {} && mayskip && !output.writing {
        ok := input.SkipValue();
        SkippedIsAccepted(bytes, pos, depth + 1, ok);
        if ok {
          NoKeysCatchNothing(false, captures.keys, ParseValue(bytes, pos, depth + 1).value.value, depth + 1, |was.emitted|);
          SkippedEffect(ranges, terms, ParseValue(bytes, pos, depth + 1).value.value, depth, was, Now());
        }
        return;
      }
      var present := PresenceHits(terms, matches, c == Some('n'), depth);
      hits := hits + present;
      ghost var mid, below := Now(), ActiveAt(depth + 1);
      HitsApplied(output.writing, was, mid, present);
      if c == Some('{') || c == Some('[') {
        ok := ScanValue();
        if ok {
          ContainerEffect(ranges, terms, matches, below, bytes, pos, depth, output.writing, was, mid, Now());
        }
      } else {
        ok := MatchedScalar(matches, depth);
        ScalarIsShallow(bytes, pos, depth + 1);
        if ok {
          MatchedScalarEffect(ranges, terms, matches, bytes, pos, depth, output.writing, was, mid, Now());
        }
      }
    }

    /** The terms that go on below a container: all that match here, or only those whose path goes on. */
    ghost predicate Below(matches: set<nat>, depth: nat)
      requires |pathActive| == MAX_DEPTH
      reads this
    {
      depth + 1 < MAX_DEPTH ==>
        && pathActive[depth + 1] <= matches
        && forall i :: i in matches && i < |terms| && depth + 1 < |terms[i].path| ==> i in pathActive[depth + 1]
    }

    // -------------------------------------------------------------- records

    /** src/lql_json_scan.c:4777-4800: a record ends with its line. */
    method RecordSeparator() returns (ok: bool)
      requires input.Valid()
      modifies input`limit, input`offset
      ensures input.Valid() && ok == LineEnd(input.bytes, old(input.offset)).Some?
      ensures ok ==> input.offset == LineEnd(input.bytes, old(input.offset)).value
    {
      var c := input.Peek();
      while c == Some(' ') || c == Some('\t')
        invariant input.Valid() && c == (if input.offset < |input.bytes| then Some(input.bytes[input.offset]) else None)
        invariant c.Some? ==> input.offset < input.limit
        invariant LineEnd(input.bytes, input.offset) == LineEnd(input.bytes, old(input.offset))
        decreases |input.bytes| - input.offset
      {
        input.offset := input.offset + 1;
        c := input.Peek();
      }
      if c.None? {
        return true;
      }
      if c == Some('\n') {
        input.offset := input.offset + 1;
        return true;
      }
      if c == Some('\r') {
        input.offset := input.offset + 1;
        ok := input.TakeExpected('\n');
        return;
      }
      ok := false;
    }

    /** src/lql_json_scan.c:5108-5134: the root with everything reset. */
    method RecordValue() returns (ok: bool)
      requires Ready() && captures.Valid() && input.depth == 0 && output.len == 0
      modifies this`hits, this`pathActive, this`numberCapacity, input, output`len, output`sunk, output.buffer, matcher, captures
      ensures var p := ParseValue(input.bytes, old(input.offset), 0);
        Accepts(ok, p.Some?, ShallowParsed(p, 0), output.writing)
      ensures ok ==> var p := ParseValue(input.bytes, old(input.offset), 0).value;
        && Ready() && input.offset == p.next && input.depth == 0
        && Applied(output.writing, Totals({}, true, ""), Now(), ValueEffect(ranges, terms, AllBits(|terms|), p.value, 0))
        && captures.Valid() && captures.spans == Caught(output.writing, captures.keys, AllBits(|captures.keys|), p.value, 0, 0)
    {
      hide TextMatcher.Valid, NoSegment, Applied, ParseValue, ValueEffect, Output.Contents, Caught;
      output.Reset();
      hits, input.compact := {}, true;
      SetPath(0, AllBits(|terms|));
      captures.Reset();
      ok := ScanValue();
    }

    lemma PathsAreNotEmpty()
      requires Valid()
      ensures forall i :: 0 <= i < |terms| ==> |terms[i].path| > 0
    {
    }

    /** src/lql_json_scan.c:5090-5144: one record and what its callback receives. */
    method Record() returns (r: RecordResult)
      requires Ready() && captures.Valid() && input.depth == 0 && output.len == 0
      modifies this`hits, this`pathActive, this`numberCapacity, input, output`len, output`sunk, output.buffer, matcher, captures
      ensures Recorded(ranges, terms, output.writing, input.bytes, old(input.offset), r)
      ensures r.Found? ==> Ready() && captures.Valid() && input.depth == 0 && output.len == 0
      ensures r.Found? ==> SpansFound(captures.keys, output.writing, ParseValue(input.bytes, r.start, 0).value.value, captures.spans)
      ensures r.Found? ==> LineEnd(input.bytes, r.start + r.len) == Some(input.offset)
    {
      hide TextMatcher.Valid, NoSegment, Applied, ParseValue, ValueEffect, SpaceEnd, LineEnd, Output.Contents, RecordIs, Caught, SpansFound;
      ghost var bytes, from := input.bytes, input.offset;
      input.SkipSpace();
      var c := input.Peek();
      if c.None? {
        return Done;
      }
      var start := input.offset;
      if c == Some('[') {
        return Failed;
      }
      var ok := RecordValue();
      if !ok {
        return Failed;
      }
      var end, compact := input.offset, input.compact;
      ghost var now := Now();
      ok := RecordSeparator();
      if !ok {
        return Failed;
      }
      output.Flush();
      r := Found(c == Some('{'), if c == Some('{') then hits else {}, output.sunk, start, end - start, compact);
      PathsAreNotEmpty();
      SpansAreFound(captures.keys, output.writing, ParseValue(bytes, start, 0).value.value, AllBits(|captures.keys|));
      RecordIsFound(ranges, terms, output.writing, bytes, start, now, r);
    }
  }

  // ---------------------------------------------------------------- lemmas

  lemma RecordIsFound(ranges: seq<CaseRange>, terms: seq<Term>, writing: bool, s: string, start: nat,
                      now: Totals, r: RecordResult)
    requires start < |s| && s[start] != '[' && ParseValue(s, start, 0).Some?
    requires forall i :: 0 <= i < |terms| ==> |terms[i].path| > 0
    requires Applied(writing, Totals({}, true, ""), now,
                     ValueEffect(ranges, terms, AllBits(|terms|), ParseValue(s, start, 0).value.value, 0))
    requires r == Found(s[start] == '{', if s[start] == '{' then now.hits else {}, now.emitted, start,
                        ParseValue(s, start, 0).value.next - start, now.compact)
    ensures RecordIs(ranges, terms, writing, s, ParseValue(s, start, 0).value.value, r)
  {
    hide ParseMembers, StringAt, NumberEnd, Print, Strip, WellFormed, Nesting, Reached, FoundUnder, Exact, At;
    var v := ParseValue(s, start, 0).value.value;
    JsonRoundTrip.ParsedIsThere(s, start, 0);
    CompactTextIsText(v);
    ReachedIsFound(ranges, terms, v);
    assert "" + Kept(writing, Print(Strip(v))) == Kept(writing, Print(Strip(v)));
    assert {} + FoundUnder(ranges, terms, AllBits(|terms|), v, 0) == FoundUnder(ranges, terms, AllBits(|terms|), v, 0);
  }

  /** What the scan finds below the root is what the paths reach. */
  lemma ReachedIsFound(ranges: seq<CaseRange>, terms: seq<Term>, v: Value)
    requires forall i :: 0 <= i < |terms| ==> |terms[i].path| > 0
    ensures FoundUnder(ranges, terms, AllBits(|terms|), v, 0) == Reached(ranges, terms, v)
  {
    hide Under, Satisfies, Reaches;
    forall i | 0 <= i < |terms|
      ensures Under(ranges, terms[i], v, 0) <==> exists node :: Reaches(v, terms[i].path, node) && Satisfies(ranges, terms[i], node)
    {
      UnderIsReach(ranges, terms[i], v, 0);
      assert terms[i].path[0..] == terms[i].path;
    }
  }

  lemma ContainerCases(s: string, pos: nat, depth: nat, braces: bool)
    requires pos < |s| && s[pos] == Open(braces)[0]
    ensures depth >= MAX_DEPTH ==> ParseContainer(s, pos, depth).None?
    ensures depth < MAX_DEPTH ==>
              var inner := SpaceEnd(s, pos + 1);
              var p := ParseContainer(s, pos, depth);
              if IsAt(s, inner, Closing(braces)[0]) then
                p == Some(Parsed(Empty(braces, s[pos + 1..inner]), inner + 1)) && ShallowParsed(p, depth)
              else
                var ms := ParseMembers(s, pos + 1, depth + 1, braces);
                && p.Some? == ms.Some?
                && (p.Some? ==> p.value.value == Nest(braces, ms.value.members) && p.value.next == ms.value.next)
                && (ShallowParsed(p, depth) <==> (braces || depth + 1 < MAX_DEPTH) && ShallowParsedMembers(ms, depth + 1))
  {
    hide ParseMembers, SpaceEnd, ShallowMembers;
  }

  lemma NoMembersAtEnd(s: string, from: nat, depth: nat, braces: bool)
    requires from <= |s| && SpaceEnd(s, from) == |s|
    ensures ParseMembers(s, from, depth, braces).None?
  {
    hide SpaceEnd;
  }

  lemma NothingApplied(writing: bool, a: Totals)
    ensures Applied(writing, a, a, NOTHING)
  {
    assert a.emitted + "" == a.emitted && a.hits + {} == a.hits;
  }

  lemma ThreeApplied(writing: bool, a: Totals, b: Totals, c: Totals, d: Totals, e: Effect, f: Effect, g: Effect)
    requires Applied(writing, a, b, e) && Applied(writing, b, c, f) && Applied(writing, c, d, g)
    ensures Applied(writing, a, d, Then(e, Then(f, g)))
  {
    hide Applied, Then;
    AppliedThen(writing, b, c, d, f, g);
    AppliedThen(writing, a, b, d, e, Then(f, g));
  }

  /** What a scalar is by its first byte. */
  lemma ScalarForms(s: string, pos: nat)
    requires pos < |s|
    ensures var p := ParseScalar(s, pos);
      if s[pos] == '"' then
        var r := StringAt(s, pos + 1);
        p.Some? == r.Some? && (p.Some? ==> p.value.next == r.value.next && Print(p.value.value) == "\"" + CharsText(r.value.chars))
      else if s[pos] == 't' || s[pos] == 'f' || s[pos] == 'n' then
        var v := if s[pos] == 'n' then Null else Bool(s[pos] == 't');
        p.Some? == At(s, pos, Literal(v)) && (p.Some? ==> p.value.next == pos + |Literal(v)| && Print(p.value.value) == Literal(v))
      else
        var r := NumberEnd(s, pos);
        p.Some? == r.Some? && (p.Some? ==> p.value.next == r.value && Print(p.value.value) == s[pos..r.value])
  {
    hide StringAt, NumberEnd, At, Literal, CharsText;
  }

  lemma TextApplied(writing: bool, a: Totals, b: Totals, text: string)
    requires b == a.(emitted := a.emitted + Kept(writing, text))
    ensures Applied(writing, a, b, Effect({}, true, text, true))
  {
    assert a.hits + {} == a.hits;
  }

  lemma KeyApplied(writing: bool, a: Totals, b: Totals, text: string)
    requires b == a.(emitted := a.emitted + Kept(writing, text))
    ensures Applied(writing, a, b, Emits(text))
  {
    assert a.hits + {} == a.hits;
  }

  lemma KeyScanned(writing: bool, a: Totals, b: Totals, c: Totals, chars: Chars, colon: string, gap: string)
    requires Applied(writing, a, b, Emits("\"" + CharsText(chars)))
    requires Applied(writing, b, c, Then(Spaces(colon), Then(Emits(":"), Spaces(gap))))
    ensures Applied(writing, a, c, KeyEffect(Named(chars, colon, gap)))
  {
    hide Applied, CharsText;
    var text := "\"" + CharsText(chars);
    AppliedThen(writing, a, b, c, Emits(text), Then(Spaces(colon), Then(Emits(":"), Spaces(gap))));
    assert text + ("" + (":" + "")) == text + ":";
    assert Then(Emits(text), Then(Spaces(colon), Then(Emits(":"), Spaces(gap)))) == KeyEffect(Named(chars, colon, gap));
  }

  lemma NoKeyApplied(writing: bool, a: Totals)
    ensures Applied(writing, a, a, KeyEffect(NoKey))
  {
    NothingApplied(writing, a);
  }

  /** A key or nothing, a value, and the space after it. */
  lemma MemberScanned(ranges: seq<CaseRange>, terms: seq<Term>, active: set<nat>, s: string, from: nat, braces: bool, depth: nat,
                      index: nat, writing: bool, a: Totals, b: Totals, c: Totals, d: Totals)
    requires from <= |s| && ParseKey(s, SpaceEnd(s, from), braces).Some?
    requires var k := ParseKey(s, SpaceEnd(s, from), braces).value;
      && ParseValue(s, k.next, depth + 1).Some?
      && var v := ParseValue(s, k.next, depth + 1).value;
        && (k.next < |s| ==> Applied(writing, a, b, KeyEffect(k.key)))
        && Applied(writing, b, c, MatchedEffect(ranges, terms, Stepped(terms, active, k.key, depth, index), v.value, depth))
        && (SpaceEnd(s, v.next) < |s| ==> Applied(writing, c, d, Spaces(s[v.next..SpaceEnd(s, v.next)])))
    ensures ParseMember(s, from, depth + 1, braces).Some?
    ensures var p := ParseMember(s, from, depth + 1, braces).value;
      p.next < |s| ==> Applied(writing, a, d, MemberEffect(ranges, terms, active, p.member, depth, index))
  {
    hide Applied, ParseKey, ParseValue, SpaceEnd, MatchedEffect, KeyEffect, MemberEffect, Stepped, Then;
    var p := ParseMember(s, from, depth + 1, braces).value;
    MemberIs(ranges, terms, active, p.member, depth, index);
    if p.next < |s| {
      ThreeApplied(writing, a, b, c, d, KeyEffect(p.member.key),
                   MatchedEffect(ranges, terms, Stepped(terms, active, p.member.key, depth, index), p.member.value, depth),
                   Spaces(p.member.after));
    }
  }

  lemma EmptyScanned(ranges: seq<CaseRange>, terms: seq<Term>, active: set<nat>, braces: bool, space: string, depth: nat,
                     writing: bool, a: Totals, b: Totals, c: Totals)
    requires Applied(writing, a, b, Then(Emits(Open(braces)), Spaces(space))) && Applied(writing, b, c, Emits(Closing(braces)))
    ensures Applied(writing, a, c, ValueEffect(ranges, terms, active, Empty(braces, space), depth))
  {
    hide Applied, Then, ValueEffect;
    AppliedThen(writing, a, b, c, Then(Emits(Open(braces)), Spaces(space)), Emits(Closing(braces)));
    ThenAssociates(Emits(Open(braces)), Spaces(space), Emits(Closing(braces)));
    EmptyEffect(ranges, terms, active, braces, space, depth);
  }

  lemma NestScanned(ranges: seq<CaseRange>, terms: seq<Term>, active: set<nat>, braces: bool, s: string, pos: nat, depth: nat,
                    writing: bool, a: Totals, b: Totals, c: Totals)
    requires pos < |s| && ParseMembers(s, pos + 1, depth + 1, braces).Some?
    requires Applied(writing, a, b, Then(Emits(Open(braces)), Spaces(s[pos + 1..SpaceEnd(s, pos + 1)])))
    requires var ms := ParseMembers(s, pos + 1, depth + 1, braces).value.members;
      Applied(writing, b, c, MembersEffect(ranges, terms, active, ms, braces, depth, 0))
    ensures var ms := ParseMembers(s, pos + 1, depth + 1, braces).value.members;
      Applied(writing, a, c, ValueEffect(ranges, terms, active, Nest(braces, ms), depth))
  {
    hide Applied, Then, ValueEffect, MembersEffect, ParseMembers, SpaceEnd;
    var ms := ParseMembers(s, pos + 1, depth + 1, braces).value.members;
    FirstSpace(s, pos + 1, depth + 1, braces);
    var e := MembersEffect(ranges, terms, active, ms, braces, depth, 0);
    AppliedThen(writing, a, b, c, Then(Emits(Open(braces)), Spaces(ms.member.before)), e);
    ThenAssociates(Emits(Open(braces)), Spaces(ms.member.before), e);
    NestEffect(ranges, terms, active, braces, ms, depth);
  }

  /** The turn that reads the last member and the closing bracket. */
  lemma LastScanned(ranges: seq<CaseRange>, terms: seq<Term>, active: set<nat>, whole: Option<ParsedMembers>, s: string, q: nat,
                    e: Effect, braces: bool, depth: nat, index: nat, writing: bool, a: Totals, b: Totals, c: Totals, d: Totals)
    requires q <= |s|
    requires MembersRun(ranges, terms, active, whole, ParseMembers(s, q, depth + 1, braces), e, braces, depth, index, writing)
    requires ParseMember(s, q, depth + 1, braces).Some?
    requires var m := ParseMember(s, q, depth + 1, braces).value;
      && IsAt(s, m.next, Closing(braces)[0]) && (writing ==> Shallow(m.member.value, depth + 1))
      && Applied(writing, a, b, e) && Applied(writing, b, c, MemberEffect(ranges, terms, active, m.member, depth, index))
      && Applied(writing, c, d, Emits(Closing(braces)))
    ensures var m := ParseMember(s, q, depth + 1, braces).value;
      && whole.Some? && whole.value.next == m.next + 1 && (writing ==> ShallowMembers(whole.value.members, depth + 1))
      && Applied(writing, a, d, MembersEffect(ranges, terms, active, whole.value.members, braces, depth, 0))
  {
    hide Applied, Then, MembersRun, MembersEffect, MemberEffect, ParseMembers, ParseMember, Shallow, ShallowMembers;
    MembersRunEnds(ranges, terms, active, whole, s, q, e, braces, depth, index, writing);
    var m := ParseMember(s, q, depth + 1, braces).value;
    ThreeApplied(writing, a, b, c, d, e, MemberEffect(ranges, terms, active, m.member, depth, index), Emits(Closing(braces)));
  }

  /** The turn that reads a member and a comma: the effect so far. */
  lemma MoreScanned(ranges: seq<CaseRange>, terms: seq<Term>, active: set<nat>, whole: Option<ParsedMembers>, s: string, q: nat,
                    e: Effect, braces: bool, depth: nat, index: nat, writing: bool, a: Totals, b: Totals, c: Totals, d: Totals, end: nat)
      returns (next: Effect)
    requires q <= |s|
    requires MembersRun(ranges, terms, active, whole, ParseMembers(s, q, depth + 1, braces), e, braces, depth, index, writing)
    requires ParseMember(s, q, depth + 1, braces).Some?
    requires var m := ParseMember(s, q, depth + 1, braces).value;
      && IsAt(s, m.next, ',') && (writing ==> Shallow(m.member.value, depth + 1)) && end == SpaceEnd(s, m.next + 1)
      && (m.next < |s| ==> Applied(writing, a, b, e) && Applied(writing, b, c, MemberEffect(ranges, terms, active, m.member, depth, index)))
      && (end < |s| ==> Applied(writing, c, d, Then(Emits(","), Spaces(s[m.next + 1..end]))))
    ensures var m := ParseMember(s, q, depth + 1, braces).value;
      && MembersRun(ranges, terms, active, whole, ParseMembers(s, m.next + 1, depth + 1, braces), next, braces, depth, index + 1, writing)
      && (end < |s| ==> Applied(writing, a, d, next))
  {
    hide Applied, Then, MembersRun, MembersEffect, MemberEffect, ParseMembers, ParseMember, Shallow, ShallowMembers, SpaceEnd;
    var m := ParseMember(s, q, depth + 1, braces).value;
    MembersRunGoesOn(ranges, terms, active, whole, s, q, e, braces, depth, index, writing);
    var f, g := MemberEffect(ranges, terms, active, m.member, depth, index), Then(Emits(","), Spaces(s[m.next + 1..end]));
    next := Then(e, Then(f, g));
    if end < |s| {
      ThreeApplied(writing, a, b, c, d, e, f, g);
    }
  }

  lemma ScalarIsShallow(s: string, pos: nat, depth: nat)
    requires pos < |s| && s[pos] != '{' && s[pos] != '['
    ensures ParseValue(s, pos, depth) == ParseScalar(s, pos)
    ensures ParseScalar(s, pos).Some? ==>
              var v := ParseScalar(s, pos).value.value;
              && Shallow(v, depth) && Strip(v) == v && !v.Nest? && !v.Empty? && (v.Null? <==> s[pos] == 'n')
  {
    hide StringAt, NumberEnd, At;
  }

  lemma HitsApplied(writing: bool, a: Totals, b: Totals, found: set<nat>)
    requires b == a.(hits := a.hits + found)
    ensures Applied(writing, a, b, Hits(found))
  {
    assert a.emitted + "" == a.emitted;
  }

  lemma ScalarEffect(ranges: seq<CaseRange>, terms: seq<Term>, active: set<nat>, s: string, pos: nat, depth: nat, writing: bool,
                     a: Totals, b: Totals)
    requires pos < |s| && s[pos] != '{' && s[pos] != '[' && ParseScalar(s, pos).Some?
    requires Applied(writing, a, b, Effect({}, true, Print(ParseScalar(s, pos).value.value), true))
    ensures Applied(writing, a, b, ValueEffect(ranges, terms, active, ParseScalar(s, pos).value.value, depth))
  {
    hide ParseScalar;
    ScalarIsShallow(s, pos, depth);
    assert FoundUnder(ranges, terms, active, ParseScalar(s, pos).value.value, depth) == {};
  }

  lemma MatchedScalarEffect(ranges: seq<CaseRange>, terms: seq<Term>, matches: set<nat>, s: string, pos: nat, depth: nat, writing: bool,
                            a: Totals, b: Totals, c: Totals)
    requires pos < |s| && s[pos] != '{' && s[pos] != '[' && ParseScalar(s, pos).Some?
    requires Applied(writing, a, b, Hits(PresenceHits(terms, matches, s[pos] == 'n', depth)))
    requires var v := ParseScalar(s, pos).value.value;
      Applied(writing, b, c, Effect(KindHits(ranges, terms, matches, v, depth), true, Print(v), Exact(terms, v)))
    ensures Applied(writing, a, c, MatchedEffect(ranges, terms, matches, ParseScalar(s, pos).value.value, depth))
  {
    hide ParseScalar, Applied, Exact;
    var v := ParseScalar(s, pos).value.value;
    ScalarIsShallow(s, pos, depth);
    ScalarFound(ranges, terms, matches, v, depth);
    var e, f := Hits(PresenceHits(terms, matches, v.Null?, depth)), Effect(KindHits(ranges, terms, matches, v, depth), true, Print(v), Exact(terms, v));
    AppliedThen(writing, a, b, c, e, f);
    assert Then(e, f) == MatchedEffect(ranges, terms, matches, v, depth);
  }

  lemma ContainerEffect(ranges: seq<CaseRange>, terms: seq<Term>, matches: set<nat>, below: set<nat>, s: string, pos: nat, depth: nat,
                        writing: bool, a: Totals, b: Totals, c: Totals)
    requires pos < |s| && (s[pos] == '{' || s[pos] == '[') && ParseValue(s, pos, depth + 1).Some?
    requires depth + 1 < MAX_DEPTH ==>
      below <= matches && forall i :: i in matches && i < |terms| && depth + 1 < |terms[i].path| ==> i in below
    requires Applied(writing, a, b, Hits(PresenceHits(terms, matches, s[pos] == 'n', depth)))
    requires Applied(writing, b, c, ValueEffect(ranges, terms, below, ParseValue(s, pos, depth + 1).value.value, depth + 1))
    ensures Applied(writing, a, c, MatchedEffect(ranges, terms, matches, ParseValue(s, pos, depth + 1).value.value, depth))
  {
    hide Applied, ParseMembers, Print, Strip, Exact, FoundUnder, FoundAt, PresenceHits;
    var v := ParseValue(s, pos, depth + 1).value.value;
    ContainerFound(ranges, terms, matches, below, v, depth);
    var e, f := Hits(PresenceHits(terms, matches, false, depth)), ValueEffect(ranges, terms, below, v, depth + 1);
    AppliedThen(writing, a, b, c, e, f);
    assert "" + Print(Strip(v)) == Print(Strip(v));
    assert Then(e, f) == MatchedEffect(ranges, terms, matches, v, depth);
  }

  lemma SkippedIsAccepted(s: string, pos: nat, depth: nat, ok: bool)
    requires pos <= |s| && ok == ParseValue(s, pos, depth).Some?
    ensures Accepts(ok, ParseValue(s, pos, depth).Some?, ShallowParsed(ParseValue(s, pos, depth), depth), false)
  {
  }

  /** Without a writer, skipping a value that no term goes through has the effect of scanning it. */
  lemma SkippedEffect(ranges: seq<CaseRange>, terms: seq<Term>, v: Value, depth: nat, a: Totals, b: Totals)
    requires b == a.(compact := a.compact && Tight(v))
    ensures Applied(false, a, b, MatchedEffect(ranges, terms, {}, v, depth))
  {
    hide Print, Strip, Exact;
    assert FoundAt(ranges, terms, {}, v, depth) == {};
    assert a.emitted + "" == a.emitted;
  }

  lemma StringSpan(s: string, start: nat, at: nat, n: nat, ranges: seq<CaseRange>, fed: string, text: string)
    requires start <= at && at + n <= |s| && AllPlain(s[at..at + n]) && Decodes(s, start, at, text)
    requires WellFormedTable(ranges) && Fold(ranges, fed + text).pending == ""
    ensures Decodes(s, start, at + n, text + s[at..at + n]) && Fold(ranges, fed + (text + s[at..at + n])).pending == ""
    ensures "\"" + s[start..at] + s[at..at + n] == "\"" + s[start..at + n]
  {
    hide Fold, WellFormedTable, Decodes, AllPlain;
    var span := s[at..at + n];
    DecodesSpan(s, at, n);
    DecodesThen(s, start, at, at + n, text, span);
    PlainIsAscii(span);
    FoldSpan(ranges, fed + text, span);
    assert fed + text + span == fed + (text + span);
  }

  lemma StringItemRead(s: string, start: nat, at: nat, text: string)
    requires start <= at < |s| && s[at] != '"' && ItemAt(s, at).Some? && Decodes(s, start, at, text)
    ensures var item := ItemAt(s, at).value;
      && at + |ItemText(item)| <= |s| && Decodes(s, start, at + |ItemText(item)|, text + ItemMeaning(item))
      && "\"" + s[start..at] + ItemText(item) == "\"" + s[start..at + |ItemText(item)|]
  {
    hide Decodes, ItemAt, ItemText, ItemMeaning, IsItem;
    DecodesItem(s, at);
    DecodesThen(s, start, at, at + |ItemText(ItemAt(s, at).value)|, text, ItemMeaning(ItemAt(s, at).value));
    JsonRoundTrip.ItemIsThere(s, at);
  }

  lemma StringEnds(s: string, start: nat, at: nat, text: string)
    requires start <= at < |s| && s[at] == '"' && Decodes(s, start, at, text)
    ensures StringAt(s, start).Some? && StringAt(s, start).value.next == at + 1
    ensures Meaning(StringAt(s, start).value.chars) == text
    ensures "\"" + s[start..at] + "\"" == "\"" + CharsText(StringAt(s, start).value.chars)
  {
    hide Decodes, StringAt, Meaning, CharsText;
    DecodesToQuote(s, start, at, text);
    JsonRoundTrip.StringIsThere(s, start);
    ByteMore(s, start, at, "\"");
    assert [s[at]] == "\"";
  }

  lemma ByteMore(s: string, a: nat, b: nat, before: string)
    requires a <= b < |s|
    ensures before + s[a..b] + [s[b]] == before + s[a..b + 1]
  {
  }

  lemma SliceSnoc(s: string, a: nat, b: nat)
    requires a <= b < |s|
    ensures s[a..b] + [s[b]] == s[a..b + 1]
  {
  }

  lemma KeptByte(writing: bool, before: string, a: string, c: char)
    ensures before + Kept(writing, a) + (if writing then [c] else "") == before + Kept(writing, a + [c])
  {
    assert before + a + [c] == before + (a + [c]);
  }

  lemma ContinuesIs(s: string, pos: nat, k: nat)
    requires pos < |s| && 0 < k
    ensures Continues(s, pos, k)
       <==> pos + k < |s| && (if k == 1 then SecondMin(s[pos]) else 0x80) <= s[pos + k] as int
                          <= (if k == 1 then SecondMax(s[pos]) else 0xbf)
  {
  }

  lemma UnitCases(s: string, pos: nat)
    requires pos < |s| && s[pos] as int >= 0x80
    ensures ItemAt(s, pos).Some? <==> Width(s[pos]) > 0 && forall k: nat :: 1 <= k < Width(s[pos]) ==> Continues(s, pos, k)
    ensures ItemAt(s, pos).Some? ==>
              && pos + Width(s[pos]) <= |s| && |ItemText(ItemAt(s, pos).value)| == Width(s[pos])
              && ItemText(ItemAt(s, pos).value) == ItemMeaning(ItemAt(s, pos).value) == s[pos..pos + Width(s[pos])]
  {
    UnitByContinuations(s, pos);
    ItemOfUnit(s, pos);
  }

  lemma PlainIsAscii(s: string)
    requires AllPlain(s)
    ensures IsAscii(s)
  {
  }

  lemma EscapeCases(s: string, pos: nat, raw: string)
    requires pos < |s| && s[pos] == '\\'
    ensures pos + 1 == |s| ==> ItemAt(s, pos).None?
    ensures pos + 1 < |s| && IsSimple(s[pos + 1]) ==>
              && ItemAt(s, pos).Some? && |ItemText(ItemAt(s, pos).value)| == 2
              && ItemMeaning(ItemAt(s, pos).value) == [Unescape(s[pos + 1])]
              && raw + "\\" + [s[pos + 1]] == raw + ItemText(ItemAt(s, pos).value)
    ensures pos + 1 < |s| && !IsSimple(s[pos + 1]) && s[pos + 1] != 'u' ==> ItemAt(s, pos).None?
  {
    hide HexAt, HexValue, IsHex;
  }

  lemma CodeCases(s: string, pos: nat)
    requires pos + 2 <= |s| && s[pos] == '\\' && s[pos + 1] == 'u'
    ensures HexAt(s, pos + 2).None? || IsLow(HexValue(HexAt(s, pos + 2).value)) ==> ItemAt(s, pos).None?
  {
    hide HexValue, IsHex;
  }

  lemma ItemIsCode(s: string, pos: nat)
    requires pos + 6 <= |s| && s[pos] == '\\' && s[pos + 1] == 'u' && HexAt(s, pos + 2) == Some(s[pos + 2..pos + 6])
    requires !IsHigh(HexValue(s[pos + 2..pos + 6])) && !IsLow(HexValue(s[pos + 2..pos + 6]))
    ensures ItemAt(s, pos) == Some(Code(s[pos + 2..pos + 6])) && |ItemText(ItemAt(s, pos).value)| == 6
    ensures ItemText(ItemAt(s, pos).value) == "\\u" + s[pos + 2..pos + 6]
    ensures IsHex(s[pos + 2..pos + 6]) && IsScalar(HexValue(s[pos + 2..pos + 6]))
    ensures ItemMeaning(ItemAt(s, pos).value) == Encode(HexValue(s[pos + 2..pos + 6]))
  {
    HexBounds(s[pos + 2..pos + 6]);
  }

  lemma PairCases(s: string, pos: nat)
    requires pos + 2 <= |s| && s[pos] == '\\' && s[pos + 1] == 'u'
    requires HexAt(s, pos + 2).Some? && IsHigh(HexValue(HexAt(s, pos + 2).value))
    ensures ItemAt(s, pos).Some?
       <==> && IsAt(s, pos + 6, '\\') && IsAt(s, pos + 7, 'u')
            && HexAt(s, pos + 8).Some? && IsLow(HexValue(HexAt(s, pos + 8).value))
  {
    hide IsHex, HexValue;
  }

  lemma ItemIsPair(s: string, pos: nat)
    requires pos + 12 <= |s| && s[pos] == '\\' && s[pos + 1] == 'u' && s[pos + 6] == '\\' && s[pos + 7] == 'u'
    requires HexAt(s, pos + 2) == Some(s[pos + 2..pos + 6]) && HexAt(s, pos + 8) == Some(s[pos + 8..pos + 12])
    requires IsHigh(HexValue(s[pos + 2..pos + 6])) && IsLow(HexValue(s[pos + 8..pos + 12]))
    ensures ItemAt(s, pos) == Some(Pair(s[pos + 2..pos + 6], s[pos + 8..pos + 12])) && |ItemText(ItemAt(s, pos).value)| == 12
    ensures ItemText(ItemAt(s, pos).value) == "\\u" + s[pos + 2..pos + 6] + "\\u" + s[pos + 8..pos + 12]
    ensures IsScalar(PairValue(HexValue(s[pos + 2..pos + 6]), HexValue(s[pos + 8..pos + 12])))
    ensures ItemMeaning(ItemAt(s, pos).value) == Encode(PairValue(HexValue(s[pos + 2..pos + 6]), HexValue(s[pos + 8..pos + 12])))
  {
    hide Encode;
  }
}
