/** Brace shorthand in mutation expressions (src/lql_direct_actions.c): /path{clause, clause} stands for its clauses,
    each written out under the path, to any depth. */
module Shorthand {
  import opened Wrappers
  import opened MutationPath
  import opened Mutations

  // ---------------------------------------------------------------- finding the brace

  /** A brace opens a shorthand unless only space, an equals sign or a comma follows it. */
  predicate Shorthands(t: string, i: nat)
    requires i < |t|
  {
    var next := SpaceEnd(t, i + 1);
    next < |t| && t[next] != '=' && t[next] != ','
  }

  predicate Halts(t: string, i: nat)
    requires i < |t|
  {
    t[i] == '=' || (t[i] == '{' && Shorthands(t, i))
  }

  function Halt(t: string, from: nat): (r: nat)
    requires from <= |t|
    ensures from <= r <= |t| && (r < |t| ==> Halts(t, r)) && forall i :: from <= i < r ==> !Halts(t, i)
    decreases |t| - from
  {
    if from == |t| || Halts(t, from) then from else Halt(t, from + 1)
  }

  /** The brace of a shorthand, on text without space around it. */
  function Brace(t: string): (r: Option<nat>)
    ensures r.Some? ==> 0 < r.value < |t| - 1 && t[r.value] == '{' && t[|t| - 1] == '}'
  {
    if |t| > 0 && t[|t| - 1] == '}' && 0 < Halt(t, 0) < |t| && t[Halt(t, 0)] == '{' then Some(Halt(t, 0)) else None
  }

  lemma {:induction false} HaltIs(t: string, from: nat, at: nat)
    requires from <= at <= |t| && (forall i :: from <= i < at ==> !Halts(t, i)) && (at < |t| ==> Halts(t, at))
    ensures Halt(t, from) == at
    decreases at - from
  {
    if from < at {
      HaltIs(t, from + 1, at);
    }
  }

  method SkipSpace(t: string, from: nat) returns (next: nat)
    requires from <= |t|
    ensures next == SpaceEnd(t, from)
  {
    next := from;
    while next < |t| && IsSpace(t[next])
      invariant from <= next <= |t| && SpaceEnd(t, next) == SpaceEnd(t, from)
    {
      next := next + 1;
    }
  }

  /** src/lql_direct_actions.c:778-808. */
  method FindBrace(t: string) returns (found: bool, open: nat)
    ensures found <==> Brace(t).Some?
    ensures found ==> open == Brace(t).value
  {
    hide SpaceEnd;
    open := 0;
    if |t| == 0 || t[|t| - 1] != '}' {
      return false, 0;
    }
    var cursor := 0;
    while cursor < |t|
      invariant cursor <= |t| && Halt(t, cursor) == Halt(t, 0)
    {
      if t[cursor] == '=' {
        return false, 0;
      }
      if t[cursor] == '{' {
        var next := SkipSpace(t, cursor + 1);
        if next < |t| && t[next] != '=' && t[next] != ',' {
          return cursor > 0, cursor;
        }
      }
      cursor := cursor + 1;
    }
    return false, 0;
  }

  // ---------------------------------------------------------------- where a clause ends

  /** What the scan of a clause remembers; quote is the character zero outside a quoted value. */
  datatype Scan = Scan(quote: char, inValue: bool, started: bool, braces: nat, brackets: nat)

  const START := Scan('\0', false, false, 0, 0)

  predicate Clean(s: Scan) { s.quote == '\0' && s.braces == 0 }

  /** src/lql_direct_actions.c:819-831. */
  predicate StartsClause(t: string, from: nat)
    requires from <= |t|
  {
    var next := SpaceEnd(t, from);
    next < |t| && (t[next] == '/' || HasPrefix(t[next..], "rm:") || HasPrefix(t[next..], "del:")
                   || HasPrefix(t[next..], "delete:") || HasPrefix(t[next..], "time:"))
  }

  predicate Separates(t: string, at: nat, s: Scan)
    requires at < |t|
  {
    Clean(s) && !(s.inValue && !s.started && IsSpace(t[at]))
    && ((t[at] == '\n' && s.brackets == 0) || (t[at] == ',' && StartsClause(t, at + 1)))
  }

  /** One turn of the scan: the state after it, and how many characters it takes. */
  function Turn(t: string, at: nat, s: Scan): (r: (Scan, nat))
    requires at < |t|
    ensures 1 <= r.1 <= 2 && at + r.1 <= |t|
  {
    var c := t[at];
    if s.quote != '\0' then
      if c == '\\' && at + 1 < |t| then (s, 2) else if c == s.quote then (s.(quote := '\0'), 1) else (s, 1)
    else if s.braces != 0 then
      (if c == '{' then s.(braces := s.braces + 1) else if c == '}' then s.(braces := s.braces - 1) else s, 1)
    else if !s.inValue && c == '=' then (s.(inValue := true, started := false), 1)
    else if s.inValue && !s.started && IsSpace(c) then (s, 1)
    else if s.inValue && !s.started && (c == '"' || c == '\'') then (s.(quote := c, started := true), 1)
    else if !s.inValue && c == '{' && Shorthands(t, at) then (s.(braces := 1), 1)
    else if c == '}' then (s, 1)
    else if s.inValue && c == '[' then (s.(brackets := s.brackets + 1, started := true), 1)
    else if c == ']' && s.brackets != 0 then (s.(brackets := s.brackets - 1), 1)
    else if s.inValue then (s.(started := true), 1)
    else (s, 1)
  }

  function ClauseEnd(t: string, at: nat, s: Scan): (r: (nat, Scan))
    requires at <= |t|
    ensures at <= r.0 <= |t|
    decreases |t| - at
  {
    if at == |t| || Separates(t, at, s) then (at, s)
    else
      var (next, width) := Turn(t, at, s);
      ClauseEnd(t, at + width, next)
  }

  /** src/lql_direct_actions.c:873-934, the same turns as 1014-1076. */
  method ScanClause(t: string, part: nat) returns (end: nat, clean: bool)
    requires part <= |t|
    ensures end == ClauseEnd(t, part, START).0 && (clean <==> Clean(ClauseEnd(t, part, START).1))
  {
    var s := START;
    end := part;
    while end < |t|
      invariant part <= end <= |t| && ClauseEnd(t, end, s) == ClauseEnd(t, part, START)
    {
      if Separates(t, end, s) {
        break;
      }
      var (next, width) := Turn(t, end, s);
      s, end := next, end + width;
    }
    clean := Clean(s);
  }

  // ---------------------------------------------------------------- what an expression means

  function AllDeeper<V>(prefix: seq<string>, actions: seq<Action<V>>): (r: seq<Action<V>>)
    ensures |r| == |actions| && forall i :: 0 <= i < |r| ==> r[i] == Deeper(prefix, actions[i])
  {
    seq(|actions|, i requires 0 <= i < |actions| => Deeper(prefix, actions[i]))
  }

  function Expand<V(!new)>(read: Reading<V>, raw: string): Option<seq<Action<V>>>
    decreases |raw|, 0, 0
  {
    var t := Trim(raw);
    match Brace(t)
    case None => (match ParseOne(read, t) case None => None case Some(action) => Some([action]))
    case Some(open) =>
      if !IsPath(t[..open]) then None
      else match ExpandAll(read, t[open + 1..|t| - 1], 0)
        case None => None
        case Some(actions) => Some(AllDeeper(Segments(t[..open]), actions))
  }

  /** The clauses of the text from a position on. */
  function ExpandAll<V(!new)>(read: Reading<V>, t: string, from: nat): Option<seq<Action<V>>>
    requires from <= |t|
    decreases |t|, 1, |t| - from
  {
    if from == |t| then Some([]) else
    var (end, s) := ClauseEnd(t, from, START);
    if !Clean(s) then None else
    var part := Trim(t[from..end]);
    match if part == "" then Some([]) else Expand(read, part)
    case None => None
    case Some(first) =>
      match ExpandAll(read, t, if end < |t| then end + 1 else end)
      case None => None
      case Some(rest) => Some(first + rest)
  }

  /** The same text written out: every clause under its full path, in order. */
  function WrittenOut(raw: string): seq<string>
    decreases |raw|, 0, 0
  {
    var t := Trim(raw);
    match Brace(t)
    case None => [t]
    case Some(open) => AllUnder(Trim(t[..open]), AllWrittenOut(t[open + 1..|t| - 1], 0))
  }

  function AllWrittenOut(t: string, from: nat): seq<string>
    requires from <= |t|
    decreases |t|, 1, |t| - from
  {
    if from == |t| then [] else
    var end := ClauseEnd(t, from, START).0;
    var part := Trim(t[from..end]);
    (if part == "" then [] else WrittenOut(part)) + AllWrittenOut(t, if end < |t| then end + 1 else end)
  }

  function AllUnder(prefix: string, clauses: seq<string>): (r: seq<string>)
    ensures |r| == |clauses| && forall i :: 0 <= i < |r| ==> r[i] == Under(prefix, clauses[i])
  {
    seq(|clauses|, i requires 0 <= i < |clauses| => Under(prefix, clauses[i]))
  }

  // ---------------------------------------------------------------- the shorthand means its clauses

  /** A text that is one plain clause for the action. */
  ghost predicate Plainly<V(!new)>(read: Reading<V>, text: string, action: Action<V>) {
    Trimmed(text) && Brace(text).None? && ParseOne(read, text) == Some(action)
  }

  ghost predicate AllPlainly<V(!new)>(read: Reading<V>, texts: seq<string>, actions: seq<Action<V>>) {
    |texts| == |actions| && forall i :: 0 <= i < |texts| ==> Plainly(read, texts[i], actions[i])
  }

  lemma {:induction false} SpaceEndIs(t: string, from: nat, at: nat)
    requires from <= at <= |t| && (forall i :: from <= i < at ==> IsSpace(t[i])) && (at < |t| ==> !IsSpace(t[at]))
    ensures SpaceEnd(t, from) == at
    decreases at - from
  {
    if from < at {
      SpaceEndIs(t, from + 1, at);
    }
  }

  /** The path in front of a shorthand's brace is harmless. */
  lemma PathIsHarmless(t: string)
    requires Trimmed(t) && Brace(t).Some? && IsPath(t[..Brace(t).value])
    ensures var path := t[..Brace(t).value];
            Harmless(Trim(path)) && Segments(Trim(path)) == Segments(path)
  {
    hide TrimRight, Halt, SpaceEnd;
    var open := Brace(t).value;
    var path := t[..open];
    var prefix := Trim(path);
    TrimIsTrimmed(path);
    TrimmedStays(prefix);
    DropSpace(t, 0);
    assert TrimLeft(path) == path;
    forall i | 0 <= i < |prefix| ensures prefix[i] != '=' && Quiet(prefix, i) {
      QuietBefore(t, open, i, |prefix|);
    }
  }

  lemma QuietBefore(t: string, open: nat, i: nat, n: nat)
    requires i < n <= open < |t| - 1 && t[|t| - 1] == '}' && t[open] == '{' && open == Halt(t, 0)
    requires forall j :: n <= j < open ==> IsSpace(t[j])
    ensures t[i] != '=' && Quiet(t[..n], i)
  {
    hide Halt, SpaceEnd;
    assert !Halts(t, i);
    if t[i] == '{' {
      var next := SpaceEnd(t, i + 1);
      assert next <= open;
      assert !Halts(t, next) || next == open;
      assert next < n;
      SpaceEndIs(t[..n], i + 1, next);
    }
  }

  /** Under a harmless prefix a plain clause stays a plain clause. */
  lemma PlainUnder<V(!new)>(read: Reading<V>, prefix: string, text: string, action: Action<V>)
    requires Harmless(prefix) && Plainly(read, text, action)
    ensures Plainly(read, Under(prefix, text), Deeper(Segments(prefix), action))
  {
    hide ParseOne, Harmless, Halt, Find, Segments;
    ClauseUnder(read, prefix, text);
    HeadIsPlain(read, text);
    PrefixStarts(prefix);
    var u := Under(prefix, text);
    var slash := Find(text, 0, '/');
    assert u[|u| - 1] == text[|text| - 1];
    assert u[0] == if slash == 0 then prefix[0] else text[0];
    if text[|text| - 1] == '}' {
      HaltUnder(prefix, text);
      assert text[0] != '{' || slash == 0;
    }
  }

  lemma HaltUnder(prefix: string, text: string)
    requires Harmless(prefix) && |text| > 0 && text[|text| - 1] == '}'
    requires var slash := Find(text, 0, '/');
             slash < |text| && slash <= Find(text, 0, '=') && slash <= Find(text, 0, '{')
    ensures var u := Under(prefix, text);
            Find(text, 0, '/') <= Halt(text, 0) && Halt(u, 0) == Halt(text, 0) + |prefix|
            && (Halt(text, 0) < |text| ==> u[Halt(u, 0)] == text[Halt(text, 0)])
  {
    hide Find, Halt, Halts, Harmless, Under;
    var slash := Find(text, 0, '/');
    var u := Under(prefix, text);
    var at := Halt(text, 0);
    UnderLength(prefix, text);
    forall i | 0 <= i < |u|
      ensures (i < slash + |prefix| ==> !Halts(u, i)) && (slash + |prefix| <= i ==> (Halts(u, i) <==> Halts(text, i - |prefix|)) && u[i] == text[i - |prefix|])
    {
      if i < slash {
        InHead(prefix, text, i);
      } else if i < slash + |prefix| {
        InPrefix(prefix, text, i - slash);
      } else {
        InTail(prefix, text, i - |prefix|);
      }
    }
    forall i | 0 <= i < slash ensures !Halts(text, i) {
      InHead(prefix, text, i);
    }
    HaltIs(u, 0, at + |prefix|);
  }

  lemma InHead(prefix: string, text: string, i: nat)
    requires i < Find(text, 0, '/') <= Find(text, 0, '=') && Find(text, 0, '/') <= Find(text, 0, '{')
    ensures !Halts(text, i) && !Halts(Under(prefix, text), i)
  {
    hide Find, SpaceEnd;
    assert Under(prefix, text)[i] == text[i];
  }

  lemma InTail(prefix: string, text: string, i: nat)
    requires Find(text, 0, '/') <= i < |text|
    ensures |Under(prefix, text)| == |prefix| + |text| && Under(prefix, text)[|prefix| + i] == text[i]
    ensures Halts(Under(prefix, text), |prefix| + i) <==> Halts(text, i)
  {
    hide Find, Halts;
    var slash := Find(text, 0, '/');
    HaltsShift(text[..slash] + prefix, text[..slash], text[slash..], i - slash);
    assert text[..slash] + text[slash..] == text;
  }

  lemma HaltsShift(a: string, b: string, c: string, i: nat)
    requires i < |c|
    ensures Halts(a + c, |a| + i) <==> Halts(b + c, |b| + i)
  {
    hide SpaceEnd;
    var next := SpaceEnd(c, i + 1);
    SpaceEndIs(a + c, |a| + i + 1, |a| + next);
    SpaceEndIs(b + c, |b| + i + 1, |b| + next);
  }

  lemma InPrefix(prefix: string, text: string, i: nat)
    requires Harmless(prefix) && i < |prefix|
    ensures !Halts(Under(prefix, text), Find(text, 0, '/') + i)
  {
    hide SpaceEnd, IsPath, Find, Trimmed, Under;
    var slash := Find(text, 0, '/');
    var u := Under(prefix, text);
    PrefixIsInside(prefix, text);
    assert Quiet(prefix, i);
    assert u[slash + i] == prefix[i];
    if prefix[i] == '{' {
      var next := SpaceEnd(prefix, i + 1);
      forall j | slash + i + 1 <= j < slash + next ensures IsSpace(u[j]) {
        assert u[j] == prefix[j - slash];
      }
      assert u[slash + next] == prefix[next];
      SpaceEndIs(u, slash + i + 1, slash + next);
    }
  }

  lemma PrefixIsInside(prefix: string, text: string)
    ensures var slash, u := Find(text, 0, '/'), Under(prefix, text);
            |u| == |prefix| + |text| && forall j :: slash <= j < slash + |prefix| ==> u[j] == prefix[j - slash]
  {
    hide Find;
  }

  lemma {:induction false} ExpandsPlainly<V(!new)>(read: Reading<V>, raw: string)
    requires Expand(read, raw).Some?
    ensures AllPlainly(read, WrittenOut(raw), Expand(read, raw).value)
    decreases |raw|, 0, 0
  {
    hide ParseOne, Brace, IsPath, Segments, Harmless, Under, Plainly, AllUnder, AllDeeper;
    var t := Trim(raw);
    TrimIsTrimmed(raw);
    if Brace(t).None? {
      assert Plainly(read, t, ParseOne(read, t).value) by { PlainIs(read, t); }
    } else {
      var open := Brace(t).value;
      var content := t[open + 1..|t| - 1];
      PathIsHarmless(t);
      ExpandsAllPlainly(read, content, 0);
      AllPlainUnder(read, Trim(t[..open]), AllWrittenOut(content, 0), ExpandAll(read, content, 0).value);
    }
  }

  lemma AllPlainUnder<V(!new)>(read: Reading<V>, prefix: string, texts: seq<string>, actions: seq<Action<V>>)
    requires Harmless(prefix) && AllPlainly(read, texts, actions)
    ensures AllPlainly(read, AllUnder(prefix, texts), AllDeeper(Segments(prefix), actions))
  {
    hide Plainly, Under, Deeper, Segments, IsPath, Quiet;
    forall i | 0 <= i < |texts| ensures Plainly(read, Under(prefix, texts[i]), Deeper(Segments(prefix), actions[i])) {
      PlainUnder(read, prefix, texts[i], actions[i]);
    }
  }

  lemma NonePlainly<V(!new)>(read: Reading<V>)
    ensures AllPlainly(read, [], [])
  {
  }

  lemma AllPlainlyJoin<V(!new)>(read: Reading<V>, texts: seq<string>, actions: seq<Action<V>>, moreTexts: seq<string>, moreActions: seq<Action<V>>)
    requires AllPlainly(read, texts, actions) && AllPlainly(read, moreTexts, moreActions)
    ensures AllPlainly(read, texts + moreTexts, actions + moreActions)
  {
    hide Plainly;
  }

  lemma PlainIs<V(!new)>(read: Reading<V>, t: string)
    requires Trimmed(t) && Brace(t).None? && ParseOne(read, t).Some?
    ensures Plainly(read, t, ParseOne(read, t).value)
  {
  }

  lemma {:induction false} ExpandsAllPlainly<V(!new)>(read: Reading<V>, t: string, from: nat)
    requires from <= |t| && ExpandAll(read, t, from).Some?
    ensures AllPlainly(read, AllWrittenOut(t, from), ExpandAll(read, t, from).value)
    decreases |t|, 1, |t| - from
  {
    hide Plainly, AllPlainly, Trim, ClauseEnd, Expand, WrittenOut;
    if from == |t| {
      NonePlainly(read);
    } else {
      var end := ClauseEnd(t, from, START).0;
      var part := Trim(t[from..end]);
      var next := if end < |t| then end + 1 else end;
      NonePlainly(read);
      if part != "" {
        ExpandsPlainly(read, part);
      }
      ExpandsAllPlainly(read, t, next);
      AllPlainlyJoin(read, if part == "" then [] else WrittenOut(part), if part == "" then [] else Expand(read, part).value,
                     AllWrittenOut(t, next), ExpandAll(read, t, next).value);
    }
  }

  /** Every expression the parser takes denotes the actions of its written-out clauses, one for one and in order:
      the parser takes each of them alone, and reads just that action. */
  lemma ShorthandMeansItsClauses<V(!new)>(read: Reading<V>, raw: string)
    requires Expand(read, raw).Some?
    ensures |WrittenOut(raw)| == |Expand(read, raw).value|
    ensures forall i :: 0 <= i < |WrittenOut(raw)| ==>
              Brace(WrittenOut(raw)[i]).None? && Expand(read, WrittenOut(raw)[i]) == Some([Expand(read, raw).value[i]])
  {
    hide Brace, ParseOne, WrittenOut;
    ExpandsPlainly(read, raw);
    var texts, actions := WrittenOut(raw), Expand(read, raw).value;
    forall i | 0 <= i < |texts| ensures Brace(texts[i]).None? && Expand(read, texts[i]) == Some([actions[i]]) {
      assert Plainly(read, texts[i], actions[i]);
      TrimmedStays(texts[i]);
    }
  }

  // ---------------------------------------------------------------- the parser

  /** The action list under construction. */
  class Mutation<V(!new)> {
    const read: Reading<V>
    var actions: seq<Action<V>>

    constructor (read: Reading<V>)
      ensures this.read == read && actions == []
    {
      this.read := read;
      actions := [];
    }

    /** Moves the child's actions here, under the prefix (src/lql_direct_actions.c:742-776 and 950-959). */
    method TakeOver(prefix: seq<string>, child: Mutation<V>)
      requires child != this
      modifies this
      ensures actions == old(actions) + AllDeeper(prefix, child.actions)
    {
      var i := 0;
      while i < |child.actions|
        invariant i <= |child.actions| && child.actions == old(child.actions)
        invariant actions == old(actions) + AllDeeper(prefix, child.actions)[..i]
      {
        actions := actions + [Deeper(prefix, child.actions[i])];
        i := i + 1;
      }
    }

    /** src/lql_direct_actions.c:833-984. */
    method ParseExpression(raw: string) returns (ok: bool)
      modifies this
      ensures ok <==> Expand(read, raw).Some?
      ensures ok ==> actions == old(actions) + Expand(read, raw).value
      decreases |raw|, 0, 0
    {
      hide ClauseEnd, ParseOne, Segments, IsPath, Brace;
      var t := Trim(raw);
      var found, open := FindBrace(t);
      if !found {
        var action := ParseOne(read, t);
        if action.Some? {
          actions := actions + [action.value];
        }
        return action.Some?;
      }
      var isPath, prefix := ParsePath(t[..open]);
      if !isPath {
        return false;
      }
      ok := ParseClauses(prefix, t[open + 1..|t| - 1]);
    }

    /** The loop over the clauses between the braces (src/lql_direct_actions.c:856-971). */
    method ParseClauses(prefix: seq<string>, content: string) returns (ok: bool)
      modifies this
      ensures ok <==> ExpandAll(read, content, 0).Some?
      ensures ok ==> actions == old(actions) + AllDeeper(prefix, ExpandAll(read, content, 0).value)
      decreases |content|, 1, 1
    {
      hide *;
      var part := 0;
      ghost var whole := ExpandAll(read, content, 0);
      while part < |content|
        invariant part <= |content| && (whole.Some? <==> ExpandAll(read, content, part).Some?)
        invariant whole.Some? ==> actions + AllDeeper(prefix, ExpandAll(read, content, part).value) == old(actions) + AllDeeper(prefix, whole.value)
      {
        var parsed, next := ParseClause(prefix, content, part);
        if !parsed {
          return false;
        }
        part := next;
      }
      NothingLeft(read, content);
      return true;
    }

    /** One clause between the braces. */
    method ParseClause(prefix: seq<string>, content: string, part: nat) returns (ok: bool, next: nat)
      requires part < |content|
      modifies this
      ensures part < next <= |content|
      ensures !ok ==> ExpandAll(read, content, part).None?
      ensures ok ==> (ExpandAll(read, content, part).Some? <==> ExpandAll(read, content, next).Some?)
      ensures ok && ExpandAll(read, content, next).Some? ==>
                actions + AllDeeper(prefix, ExpandAll(read, content, next).value) == old(actions) + AllDeeper(prefix, ExpandAll(read, content, part).value)
      decreases |content|, 1, 0
    {
      hide *;
      ExpandAllStep(read, content, part);
      var end, clean := ScanClause(content, part);
      next := if end < |content| then end + 1 else end;
      if !clean {
        return false, next;
      }
      var clause := Trim(content[part..end]);
      ghost var first: seq<Action<V>> := [];
      if clause != "" {
        var child := new Mutation<V>(read);
        ok := child.ParseExpression(clause);
        if !ok {
          return;
        }
        first := child.actions;
        TakeOver(prefix, child);
      }
      ok := true;
      if ExpandAll(read, content, next).Some? {
        AllDeeperJoins(prefix, first, ExpandAll(read, content, next).value);
        Regroup(old(actions), AllDeeper(prefix, first), AllDeeper(prefix, ExpandAll(read, content, next).value));
      }
    }

    /** src/lql_direct_actions.c:986-1104. */
    method ParseList(raw: string) returns (ok: bool)
      modifies this
      ensures ok <==> ExpandAll(read, Trim(raw), 0).Some?
      ensures ok ==> actions == old(actions) + ExpandAll(read, Trim(raw), 0).value
    {
      hide *;
      var t := Trim(raw);
      var part := 0;
      ghost var whole := ExpandAll(read, t, 0);
      while part < |t|
        invariant part <= |t| && (whole.Some? <==> ExpandAll(read, t, part).Some?)
        invariant whole.Some? ==> actions + ExpandAll(read, t, part).value == old(actions) + whole.value
      {
        ghost var had := actions;
        ExpandAllStep(read, t, part);
        var end, clean := ScanClause(t, part);
        if !clean {
          return false;
        }
        var clause := Trim(t[part..end]);
        if clause != "" {
          ok := ParseExpression(clause);
          if !ok {
            return;
          }
        }
        var next := if end < |t| then end + 1 else end;
        if whole.Some? {
          Regroup(had, if clause == "" then [] else Expand(read, clause).value, ExpandAll(read, t, next).value);
        }
        part := next;
      }
      NothingLeft(read, t);
      return true;
    }
  }

  /** What is left of a text, one clause on. */
  lemma ExpandAllStep<V(!new)>(read: Reading<V>, t: string, part: nat)
    requires part < |t|
    ensures var (end, s) := ClauseEnd(t, part, START);
            var clause := Trim(t[part..end]);
            var first := if clause == "" then Some([]) else Expand(read, clause);
            var rest := ExpandAll(read, t, if end < |t| then end + 1 else end);
            |clause| <= |t| && ExpandAll(read, t, part)
              == if !Clean(s) || first.None? || rest.None? then None else Some(first.value + rest.value)
  {
    hide ClauseEnd, Expand;
  }

  lemma NothingLeft<V(!new)>(read: Reading<V>, t: string)
    ensures ExpandAll(read, t, |t|) == Some([])
    ensures forall prefix: seq<string>, had: seq<Action<V>> :: had + AllDeeper(prefix, []) == had
  {
  }

  lemma AllDeeperJoins<V>(prefix: seq<string>, a: seq<Action<V>>, b: seq<Action<V>>)
    ensures AllDeeper(prefix, a + b) == AllDeeper(prefix, a) + AllDeeper(prefix, b)
  {
  }
}
