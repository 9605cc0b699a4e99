/** Walking along a string item by item: what the string loops of src/lql_json_scan.c rely on. */
module JsonStrings {
  import opened Wrappers
  import opened Utf8
  import opened JsonSyntax
  import opened JsonParse

  /** The bytes that lql_json_plain_ascii_span runs over (src/lql_json_scan.c:3058-3111). */
  predicate IsPlain(c: char) { c != '"' && c != '\\' && 0x20 <= c as int < 0x80 }

  predicate AllPlain(s: string) { forall i :: 0 <= i < |s| ==> IsPlain(s[i]) }

  /** From p to q the string decodes as the text, and it closes from p exactly where it closes from q. */
  predicate Decodes(s: string, p: nat, q: nat, text: string)
    requires p <= |s| && q <= |s|
  {
    && StringAt(s, p).Some? == StringAt(s, q).Some?
    && (StringAt(s, p).Some? ==>
          && StringAt(s, p).value.next == StringAt(s, q).value.next
          && Meaning(StringAt(s, p).value.chars) == text + Meaning(StringAt(s, q).value.chars))
  }

  lemma DecodesNothing(s: string, p: nat)
    requires p <= |s|
    ensures Decodes(s, p, p, "")
  {
    if StringAt(s, p).Some? {
      assert "" + Meaning(StringAt(s, p).value.chars) == Meaning(StringAt(s, p).value.chars);
    }
  }

  lemma DecodesThen(s: string, p: nat, q: nat, r: nat, a: string, b: string)
    requires p <= |s| && q <= |s| && r <= |s| && Decodes(s, p, q, a) && Decodes(s, q, r, b)
    ensures Decodes(s, p, r, a + b)
  {
    hide StringAt, Meaning;
    if StringAt(s, p).Some? {
      var m := Meaning(StringAt(s, r).value.chars);
      assert a + (b + m) == a + b + m;
    }
  }

  lemma DecodesItem(s: string, p: nat)
    requires p < |s| && s[p] != '"' && ItemAt(s, p).Some?
    ensures var item := ItemAt(s, p).value;
      Decodes(s, p, p + |ItemText(item)|, ItemMeaning(item))
  {
    hide ItemAt, ItemText, ItemMeaning;
  }

  lemma NoItem(s: string, p: nat)
    requires p <= |s| && (p == |s| || s[p] != '"') && ItemAt(s, p).None?
    ensures StringAt(s, p).None?
  {
  }

  lemma DecodesPlain(s: string, p: nat)
    requires p < |s| && IsPlain(s[p])
    ensures Decodes(s, p, p + 1, [s[p]])
  {
    assert ItemAt(s, p) == Some(Unit([s[p]])) by {
      assert s[p..p + 1] == [s[p]];
    }
    DecodesItem(s, p);
  }

  lemma {:induction false} DecodesSpan(s: string, p: nat, n: nat)
    requires p + n <= |s| && AllPlain(s[p..p + n])
    ensures Decodes(s, p, p + n, s[p..p + n])
    decreases n
  {
    hide Decodes;
    if n == 0 {
      DecodesNothing(s, p);
    } else {
      assert s[p..p + n][..n - 1] == s[p..p + n - 1];
      DecodesSpan(s, p, n - 1);
      assert IsPlain(s[p..p + n][n - 1]);
      DecodesPlain(s, p + n - 1);
      DecodesThen(s, p, p + n - 1, p + n, s[p..p + n - 1], [s[p + n - 1]]);
      assert s[p..p + n] == s[p..p + n - 1] + [s[p + n - 1]];
    }
  }

  lemma Closes(s: string, p: nat)
    requires p < |s| && s[p] == '"'
    ensures StringAt(s, p) == Some(CharsEnd(Close, p + 1))
  {
  }

  /** The string that decodes as the text up to a closing quote. */
  lemma DecodesToQuote(s: string, p: nat, q: nat, text: string)
    requires p <= |s| && q < |s| && s[q] == '"' && Decodes(s, p, q, text)
    ensures StringAt(s, p).Some? && StringAt(s, p).value.next == q + 1 && Meaning(StringAt(s, p).value.chars) == text
  {
    Closes(s, q);
    assert text + "" == text;
  }

  // ---------------------------------------------------------------- multi-byte characters

  /** The bounds of the second byte (src/lql_json_scan.c:3371-3391 and 3647-3665). */
  function SecondMin(first: char): int {
    if first as int == 0xe0 then 0xa0 else if first as int == 0xf0 then 0x90 else 0x80
  }

  function SecondMax(first: char): int {
    if first as int == 0xed then 0x9f else if first as int == 0xf4 then 0x8f else 0xbf
  }

  /** The byte at distance k from a first byte is an allowed continuation. */
  predicate Continues(s: string, pos: nat, k: nat)
    requires pos < |s| && 0 < k
  {
    && pos + k < |s|
    && (if k == 1 then SecondMin(s[pos]) <= s[pos + k] as int <= SecondMax(s[pos]) else IsTail(s[pos + k]))
  }

  lemma UnitByContinuations(s: string, pos: nat)
    requires pos < |s| && s[pos] as int >= 0x80
    ensures UnitAt(s, pos).Some?
       <==> Width(s[pos]) > 0 && forall k: nat :: 1 <= k < Width(s[pos]) ==> Continues(s, pos, k)
    ensures UnitAt(s, pos).Some? ==> |UnitAt(s, pos).value| == Width(s[pos])
  {
    var w := Width(s[pos]);
    if w > 0 && pos + w <= |s| {
      var u := s[pos..pos + w];
      assert u[0] == s[pos] && u[1] == s[pos + 1];
      assert w >= 3 ==> u[2] == s[pos + 2];
      assert w == 4 ==> u[3] == s[pos + 3];
      assert Continues(s, pos, 1) <==> SecondMin(u[0]) <= u[1] as int <= SecondMax(u[0]);
      assert w >= 3 ==> (Continues(s, pos, 2) <==> IsTail(u[2]));
      assert w == 4 ==> (Continues(s, pos, 3) <==> IsTail(u[3]));
    } else if w > 0 {
      assert !Continues(s, pos, w - 1);
    }
  }

  lemma ItemOfUnit(s: string, pos: nat)
    requires pos < |s| && s[pos] as int >= 0x80
    ensures ItemAt(s, pos).Some? == UnitAt(s, pos).Some?
    ensures ItemAt(s, pos).Some? ==> ItemAt(s, pos).value == Unit(UnitAt(s, pos).value)
  {
  }

  // ---------------------------------------------------------------- what escapes decode as

  const LOWER_HEX := "0123456789abcdef"
  const UPPER_HEX := "0123456789ABCDEF"

  /** A hexadecimal digit in either case. */
  predicate Spells(c: char, digit: int) { 0 <= digit < 16 && (c == LOWER_HEX[digit] || c == UPPER_HEX[digit]) }

  /** The four hexadecimal digits of a number, most significant first. */
  predicate SpellsFour(hex: string, n: int) {
    && |hex| == 4 && 0 <= n < 0x10000
    && Spells(hex[0], n / 4096) && Spells(hex[1], n / 256 % 16) && Spells(hex[2], n / 16 % 16) && Spells(hex[3], n % 16)
  }

  lemma DigitSpelt(c: char, digit: int)
    requires Spells(c, digit)
    ensures HexDigit(c) == digit
  {
    if digit < 10 {
      assert LOWER_HEX[digit] == UPPER_HEX[digit] == ('0' as int + digit) as char;
    } else {
      assert LOWER_HEX[digit] == ('a' as int + digit - 10) as char && UPPER_HEX[digit] == ('A' as int + digit - 10) as char;
    }
  }

  lemma FourSpelt(hex: string, n: int)
    requires SpellsFour(hex, n)
    ensures |hex| == 4 && IsHex(hex) && HexValue(hex) == n
  {
    hide HexDigit, Spells;
    Nibbles(n);
    DigitSpelt(hex[0], n / 4096);
    DigitSpelt(hex[1], n / 256 % 16);
    DigitSpelt(hex[2], n / 16 % 16);
    DigitSpelt(hex[3], n % 16);
  }

  lemma Nibbles(n: int)
    requires 0 <= n < 0x10000
    ensures n / 4096 * 16 + n / 256 % 16 == n / 256 && n / 256 * 16 + n / 16 % 16 == n / 16 && n / 16 * 16 + n % 16 == n
  {
  }

  /** The bytes from pos on. */
  predicate Stands(s: string, pos: nat, text: string) { pos + |text| <= |s| && s[pos..pos + |text|] == text }

  lemma HexThere(s: string, pos: nat, hex: string)
    requires |hex| == 4 && Stands(s, pos, hex) && IsHex(hex)
    ensures HexAt(s, pos) == Some(hex)
  {
  }

  lemma StandsJoin(s: string, pos: nat, a: string, b: string)
    requires Stands(s, pos, a + b)
    ensures Stands(s, pos, a) && Stands(s, pos + |a|, b)
  {
    assert s[pos..pos + |a|] == s[pos..pos + |a + b|][..|a|] == (a + b)[..|a|] == a;
    assert s[pos + |a|..pos + |a| + |b|] == s[pos..pos + |a + b|][|a|..] == (a + b)[|a|..] == b;
  }

  lemma MarkThere(s: string, pos: nat)
    requires Stands(s, pos, "\\u")
    ensures pos + 2 <= |s| && s[pos] == '\\' && s[pos + 1] == 'u'
  {
    assert s[pos..pos + 2][0] == s[pos] && s[pos..pos + 2][1] == s[pos + 1];
  }

  /** The escape of a code unit outside the surrogates is that character, whichever case its digits have. */
  lemma CodeDecodes(s: string, pos: nat, n: int, hex: string)
    requires SpellsFour(hex, n) && !(0xd800 <= n <= 0xdfff) && Stands(s, pos, "\\u" + hex)
    ensures Decodes(s, pos, pos + 6, Encode(n))
  {
    hide SpellsFour, HexValue, IsHex, Decodes, Encode, Stands;
    FourSpelt(hex, n);
    StandsJoin(s, pos, "\\u", hex);
    MarkThere(s, pos);
    HexThere(s, pos + 2, hex);
    DecodesItem(s, pos);
  }

  /** The escapes of a surrogate pair are the one character that the pair stands for. */
  lemma PairDecodes(s: string, pos: nat, v: int, high: string, low: string)
    requires 0x10000 <= v <= 0x10ffff
    requires SpellsFour(high, 0xd800 + (v - 0x10000) / 1024) && SpellsFour(low, 0xdc00 + (v - 0x10000) % 1024)
    requires Stands(s, pos, "\\u" + high + "\\u" + low)
    ensures Decodes(s, pos, pos + 12, Encode(v))
  {
    hide SpellsFour, HexValue, IsHex, Decodes, Encode, Stands, PairValue, ItemAt, ItemText, ItemMeaning, IsItem;
    var h, l := 0xd800 + (v - 0x10000) / 1024, 0xdc00 + (v - 0x10000) % 1024;
    PairOf(v);
    FourSpelt(high, h);
    FourSpelt(low, l);
    PairItem(s, pos, high, low);
    DecodesItem(s, pos);
  }

  lemma PairOf(v: int)
    requires 0x10000 <= v <= 0x10ffff
    ensures var h, l := 0xd800 + (v - 0x10000) / 1024, 0xdc00 + (v - 0x10000) % 1024; IsHigh(h) && IsLow(l) && PairValue(h, l) == v
  {
  }

  lemma PairItem(s: string, pos: nat, high: string, low: string)
    requires |high| == 4 && IsHex(high) && IsHigh(HexValue(high)) && |low| == 4 && IsHex(low) && IsLow(HexValue(low))
    requires Stands(s, pos, "\\u" + high + "\\u" + low)
    ensures pos < |s| && s[pos] != '"' && ItemAt(s, pos) == Some(Pair(high, low)) && |ItemText(Pair(high, low))| == 12
    ensures IsItem(Pair(high, low)) && ItemMeaning(Pair(high, low)) == Encode(PairValue(HexValue(high), HexValue(low)))
  {
    hide HexValue, IsHex, Encode, Stands, HexAt, PairValue;
    StandsJoin(s, pos, "\\u" + high + "\\u", low);
    StandsJoin(s, pos, "\\u" + high, "\\u");
    StandsJoin(s, pos, "\\u", high);
    MarkThere(s, pos);
    MarkThere(s, pos + 6);
    HexThere(s, pos + 2, high);
    HexThere(s, pos + 8, low);
  }

  /** The two-byte escapes of section 7 of RFC 8259, and the characters they stand for. */
  const ESCAPES := "\"\\/bfnrt"
  const ESCAPED := [0x22, 0x5c, 0x2f, 0x08, 0x0c, 0x0a, 0x0d, 0x09]

  lemma EscapeDecodes(s: string, pos: nat, k: nat)
    requires k < 8 && Stands(s, pos, ['\\', ESCAPES[k]])
    ensures Decodes(s, pos, pos + 2, [ESCAPED[k] as char])
  {
    hide Decodes;
    var text := ['\\', ESCAPES[k]];
    assert s[pos] == text[0] && s[pos + 1] == text[1];
    DecodesItem(s, pos);
  }

  /** No other byte makes a two-byte escape. */
  lemma OtherEscapesFail(s: string, pos: nat)
    requires pos < |s| && s[pos] == '\\' && (pos + 1 < |s| ==> s[pos + 1] != 'u' && s[pos + 1] !in ESCAPES)
    ensures StringAt(s, pos).None?
  {
    NoItem(s, pos);
  }
}
