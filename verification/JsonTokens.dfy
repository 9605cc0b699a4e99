/** The fixed tokens of a JSON text, byte by byte (sections 2 and 3 of RFC 8259). */
module JsonTokens {
  import opened Wrappers
  import opened JsonSyntax
  import opened JsonParse
  import opened JsonStrings

  /** true, false and null. */
  lemma WordsRead(s: string, pos: nat, depth: int)
    ensures Stands(s, pos, "true") ==> ParseValue(s, pos, depth) == Some(Parsed(Bool(true), pos + 4))
    ensures Stands(s, pos, "false") ==> ParseValue(s, pos, depth) == Some(Parsed(Bool(false), pos + 5))
    ensures Stands(s, pos, "null") ==> ParseValue(s, pos, depth) == Some(Parsed(Null, pos + 4))
  {
    if Stands(s, pos, "true") {
      assert s[pos] == s[pos..pos + 4][0];
    }
    if Stands(s, pos, "false") {
      assert s[pos] == s[pos..pos + 5][0];
    }
    if Stands(s, pos, "null") {
      assert s[pos] == s[pos..pos + 4][0];
    }
  }

  /** Tab, line feed, carriage return and space. */
  predicate Blank(c: char) { c as int in {0x09, 0x0a, 0x0d, 0x20} }

  lemma {:induction false} SpaceRuns(s: string, pos: nat, end: nat)
    requires pos <= end <= |s| && (forall i :: pos <= i < end ==> Blank(s[i])) && (end < |s| ==> !Blank(s[end]))
    ensures SpaceEnd(s, pos) == end
    decreases end - pos
  {
    if pos < end {
      SpaceRuns(s, pos + 1, end);
    }
  }

  /** An object or array with nothing but white space inside. */
  lemma EmptiesRead(s: string, pos: nat, end: nat, depth: int)
    requires pos < end < |s| && depth < MAX_DEPTH && forall i :: pos < i < end ==> Blank(s[i])
    ensures s[pos] == '{' && s[end] == '}' ==> ParseValue(s, pos, depth) == Some(Parsed(Empty(true, s[pos + 1..end]), end + 1))
    ensures s[pos] == '[' && s[end] == ']' ==> ParseValue(s, pos, depth) == Some(Parsed(Empty(false, s[pos + 1..end]), end + 1))
  {
    hide SpaceEnd;
    if s[end] == '}' || s[end] == ']' {
      SpaceRuns(s, pos + 1, end);
    }
  }

  /** A member: a string, a colon and a value, white space around the colon. */
  lemma KeysRead(s: string, pos: nat, chars: Chars, next: nat, colon: nat, value: nat)
    requires pos < |s| && s[pos] == '"' && StringAt(s, pos + 1) == Some(CharsEnd(chars, next))
    requires next <= colon < value <= |s| && s[colon] == ':' && (forall i :: next <= i < colon ==> Blank(s[i]))
    requires (forall i :: colon < i < value ==> Blank(s[i])) && (value < |s| ==> !Blank(s[value]))
    ensures ParseKey(s, pos, true) == Some(ParsedKey(Named(chars, s[next..colon], s[colon + 1..value]), value))
  {
    hide SpaceEnd, StringAt;
    SpaceRuns(s, next, colon);
    SpaceRuns(s, colon + 1, value);
  }
}
