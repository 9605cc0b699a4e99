/** The word-at-a-time scan for plain string bytes (src/lql_json_scan.c:3052-3111). */
module PlainAscii {

  const ONES: bv64 := 0x0101_0101_0101_0101
  const HIGH: bv64 := 0x8080_8080_8080_8080
  const CONTROL: bv64 := 0x6060_6060_6060_6060
  const QUOTES: bv64 := 0x2222_2222_2222_2222
  const BACKSLASHES: bv64 := 0x5c5c_5c5c_5c5c_5c5c

  /** src/lql_json_scan.c:3052-3058. */
  predicate HasZeroByte(value: bv64) { (value - ONES) & !value & HIGH != 0 }

  /** Whether the scan stops at the word. */
  predicate Stops(word: bv64) {
    || word & HIGH != 0
    || !(word + CONTROL) & HIGH != 0
    || HasZeroByte(word ^ QUOTES)
    || HasZeroByte(word ^ BACKSLASHES)
  }

  /** No quote, no backslash, no control byte, nothing above ASCII. */
  predicate PlainByte(byte: bv8) { byte != 0x22 && byte != 0x5c && 0x20 <= byte < 0x80 }

  predicate PlainValue(byte: bv64) { byte != 0x22 && byte != 0x5c && 0x20 <= byte < 0x80 }

  predicate PlainWord(word: bv64) {
    && PlainValue(word & 0xff) && PlainValue((word >> 8) & 0xff) && PlainValue((word >> 16) & 0xff)
    && PlainValue((word >> 24) & 0xff) && PlainValue((word >> 32) & 0xff) && PlainValue((word >> 40) & 0xff)
    && PlainValue((word >> 48) & 0xff) && PlainValue((word >> 56) & 0xff)
  }

  predicate AllAscii(word: bv64) {
    && word & 0xff < 0x80 && (word >> 8) & 0xff < 0x80 && (word >> 16) & 0xff < 0x80 && (word >> 24) & 0xff < 0x80
    && (word >> 32) & 0xff < 0x80 && (word >> 40) & 0xff < 0x80 && (word >> 48) & 0xff < 0x80 && (word >> 56) & 0xff < 0x80
  }

  predicate NoControl(word: bv64) {
    && word & 0xff >= 0x20 && (word >> 8) & 0xff >= 0x20 && (word >> 16) & 0xff >= 0x20 && (word >> 24) & 0xff >= 0x20
    && (word >> 32) & 0xff >= 0x20 && (word >> 40) & 0xff >= 0x20 && (word >> 48) & 0xff >= 0x20 && (word >> 56) & 0xff >= 0x20
  }

  predicate SomeIs(word: bv64, c: bv64) {
    || word & 0xff == c || (word >> 8) & 0xff == c || (word >> 16) & 0xff == c || (word >> 24) & 0xff == c
    || (word >> 32) & 0xff == c || (word >> 40) & 0xff == c || (word >> 48) & 0xff == c || (word >> 56) & 0xff == c
  }

  lemma HighBits(word: bv64)
    ensures word & HIGH == 0 <==> AllAscii(word)
  {
  }

  /** Without high bits the addition carries into no other byte. */
  lemma ControlBits(word: bv64)
    requires AllAscii(word)
    ensures !(word + CONTROL) & HIGH == 0 <==> NoControl(word)
  {
  }

  lemma ZeroBytes(word: bv64)
    ensures HasZeroByte(word) <==> SomeIs(word, 0)
  {
  }

  lemma MaskedBytes(word: bv64)
    ensures SomeIs(word ^ QUOTES, 0) <==> SomeIs(word, 0x22)
    ensures SomeIs(word ^ BACKSLASHES, 0) <==> SomeIs(word, 0x5c)
  {
    MaskedQuotes(word);
    MaskedBackslashes(word);
  }

  lemma MaskedQuotes(word: bv64)
    ensures SomeIs(word ^ QUOTES, 0) <==> SomeIs(word, 0x22)
  {
  }

  lemma MaskedBackslashes(word: bv64)
    ensures SomeIs(word ^ BACKSLASHES, 0) <==> SomeIs(word, 0x5c)
  {
  }

  /** The add, subtract and mask tests stop exactly at a word with a byte that is not plain. */
  lemma StopsExactly(word: bv64)
    ensures Stops(word) <==> !PlainWord(word)
  {
    hide AllAscii, NoControl, SomeIs, HasZeroByte, PlainWord;
    HighBits(word);
    if AllAscii(word) {
      ControlBits(word);
    }
    ZeroBytes(word ^ QUOTES);
    ZeroBytes(word ^ BACKSLASHES);
    MaskedBytes(word);
    PlainWordIs(word);
  }

  lemma PlainWordIs(word: bv64)
    ensures PlainWord(word) <==> AllAscii(word) && NoControl(word) && !SomeIs(word, 0x22) && !SomeIs(word, 0x5c)
  {
  }

  /** memcpy of eight bytes; the order of the bytes in the word does not matter to the tests. */
  function WordAt(data: seq<bv8>, at: nat): bv64
    requires at + 8 <= |data|
  {
    Word(data[at], data[at + 1], data[at + 2], data[at + 3], data[at + 4], data[at + 5], data[at + 6], data[at + 7])
  }

  function Word(a: bv8, b: bv8, c: bv8, d: bv8, e: bv8, f: bv8, g: bv8, h: bv8): bv64 {
    (a as bv64) | ((b as bv64) << 8) | ((c as bv64) << 16) | ((d as bv64) << 24)
    | ((e as bv64) << 32) | ((f as bv64) << 40) | ((g as bv64) << 48) | ((h as bv64) << 56)
  }

  lemma BytesOfWord(a: bv8, b: bv8, c: bv8, d: bv8, e: bv8, f: bv8, g: bv8, h: bv8)
    ensures var word := Word(a, b, c, d, e, f, g, h);
      && word & 0xff == a as bv64 && (word >> 8) & 0xff == b as bv64 && (word >> 16) & 0xff == c as bv64
      && (word >> 24) & 0xff == d as bv64 && (word >> 32) & 0xff == e as bv64 && (word >> 40) & 0xff == f as bv64
      && (word >> 48) & 0xff == g as bv64 && (word >> 56) & 0xff == h as bv64
  {
  }

  lemma SameByte(a: bv8)
    ensures PlainValue(a as bv64) <==> PlainByte(a)
  {
  }

  lemma WordIsPlain(a: bv8, b: bv8, c: bv8, d: bv8, e: bv8, f: bv8, g: bv8, h: bv8)
    ensures PlainWord(Word(a, b, c, d, e, f, g, h))
       <==> && PlainByte(a) && PlainByte(b) && PlainByte(c) && PlainByte(d)
            && PlainByte(e) && PlainByte(f) && PlainByte(g) && PlainByte(h)
  {
    hide Word, PlainValue, PlainByte;
    BytesOfWord(a, b, c, d, e, f, g, h);
    SameByte(a);
    SameByte(b);
    SameByte(c);
    SameByte(d);
    SameByte(e);
    SameByte(f);
    SameByte(g);
    SameByte(h);
  }

  /** The length of the longest prefix of plain bytes. */
  function PlainLength(data: seq<bv8>, from: nat): (n: nat)
    requires from <= |data|
    ensures from + n <= |data| && forall i :: from <= i < from + n ==> PlainByte(data[i])
    ensures from + n < |data| ==> !PlainByte(data[from + n])
    decreases |data| - from
  {
    if from == |data| || !PlainByte(data[from]) then 0 else 1 + PlainLength(data, from + 1)
  }

  /** src/lql_json_scan.c:3104-3109: one byte at a time. */
  method ByteSpan(data: seq<bv8>, from: nat) returns (offset: nat)
    requires from <= |data|
    ensures offset == from + PlainLength(data, from)
  {
    offset := from;
    while offset < |data| && PlainByte(data[offset])
      invariant from <= offset <= |data| && offset + PlainLength(data, offset) == from + PlainLength(data, from)
    {
      offset := offset + 1;
    }
  }

  lemma EightPlain(data: seq<bv8>, at: nat)
    requires at + 8 <= |data| && forall i :: at <= i < at + 8 ==> PlainByte(data[i])
    ensures PlainLength(data, at) == 8 + PlainLength(data, at + 8)
  {
    FourPlain(data, at);
    FourPlain(data, at + 4);
  }

  lemma FourPlain(data: seq<bv8>, at: nat)
    requires at + 4 <= |data| && forall i :: at <= i < at + 4 ==> PlainByte(data[i])
    ensures PlainLength(data, at) == 4 + PlainLength(data, at + 4)
  {
    assert PlainLength(data, at) == 1 + PlainLength(data, at + 1);
    assert PlainLength(data, at + 1) == 1 + PlainLength(data, at + 2);
    assert PlainLength(data, at + 2) == 1 + PlainLength(data, at + 3);
    assert PlainLength(data, at + 3) == 1 + PlainLength(data, at + 4);
  }

  /** src/lql_json_scan.c:3068-3111: a word at a time while no word stops the scan, then byte by byte. */
  method Span(data: seq<bv8>) returns (offset: nat)
    ensures offset == PlainLength(data, 0)
  {
    hide Stops, PlainWord, Word, PlainByte;
    if |data| < 8 {
      offset := ByteSpan(data, 0);
      return;
    }
    offset := 0;
    while |data| - offset >= 8
      invariant offset <= |data| && offset + PlainLength(data, offset) == PlainLength(data, 0)
    {
      var word := WordAt(data, offset);
      StopsExactly(word);
      WordIsPlain(data[offset], data[offset + 1], data[offset + 2], data[offset + 3],
                  data[offset + 4], data[offset + 5], data[offset + 6], data[offset + 7]);
      if Stops(word) {
        break;
      }
      EightPlain(data, offset);
      offset := offset + 8;
    }
    offset := ByteSpan(data, offset);
  }
}
