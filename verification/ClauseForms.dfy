/** What the clauses of a mutation expression do, form by form (src/lql_direct_actions.c:473-715), and what braces do with them
    (src/lql_direct_actions.c:833-984), on the texts themselves. */
module ClauseForms {
  import opened Wrappers
  import opened MutationPath
  import opened Mutations
  import opened Shorthand

  /** A path that stands in front of an operator or behind a command. */
  predicate PlainPath(p: string) { IsPath(p) && Trimmed(p) && '=' !in p && '{' !in p }

  /** One action of the form on the path, if its value can be read. */
  function Acts<V(!new)>(read: Reading<V>, form: Form, path: string, value: string): Option<seq<Action<V>>>
    requires IsPath(path)
  {
    match read(form, value)
    case None => None
    case Some(v) => Some([Action(form, Segments(path), v)])
  }

  lemma SlashFirst(p: string)
    requires PlainPath(p)
    ensures |p| > 1 && p[0] == '/' && Trim(p) == p
  {
    TrimmedStays(p);
  }

  lemma NoCommand(t: string)
    requires |t| > 0 && t[0] == '/'
    ensures Command(t) == (Assign, 0) && !Removal(t) && !HasPrefix(t, "time:")
  {
    assert "textfile:"[0] == 't' && "base64file:"[0] == 'b' && "file:"[0] == 'f' && "time:"[0] == 't';
    assert "rm:"[0] == 'r' && "remove:"[0] == 'r' && "delete:"[0] == 'd' && "del:"[0] == 'd';
  }

  /** An expression without a shorthand is its one clause. */
  lemma OneClause<V(!new)>(read: Reading<V>, t: string)
    requires Trimmed(t) && Brace(t).None?
    ensures Expand(read, t) == match ParseOne(read, t) case None => None case Some(action) => Some([action])
  {
    hide ParseOne, Brace;
    TrimmedStays(t);
  }

  /** Two pluses behind a path increment it. */
  lemma PlusPlusIncrements<V(!new)>(read: Reading<V>, p: string)
    requires PlainPath(p)
    ensures Expand(read, p + "++") == Acts(read, Increment, p, "")
  {
    hide Brace, Segments, Expand;
    SlashFirst(p);
    var t := p + "++";
    NoCommand(t);
    OneClause(read, t);
    assert t[..|t| - 2] == p && t[0..] == t;
  }

  /** Two minuses decrement it. */
  lemma MinusMinusDecrements<V(!new)>(read: Reading<V>, p: string)
    requires PlainPath(p)
    ensures Expand(read, p + "--") == Acts(read, Decrement, p, "")
  {
    hide Brace, Segments, Expand;
    SlashFirst(p);
    var t := p + "--";
    NoCommand(t);
    OneClause(read, t);
    assert t[..|t| - 2] == p && t[0..] == t;
  }

  // ---------------------------------------------------------------- commands

  predicate RemovalWord(word: string) { word == "rm:" || word == "remove:" || word == "delete:" || word == "del:" }

  lemma Starts(word: string, rest: string, other: string)
    ensures HasPrefix(word + rest, word)
    ensures |other| <= |word| ==> (HasPrefix(word + rest, other) <==> other <= word)
  {
    assert (word + rest)[..|word|] == word;
    if |other| <= |word| {
      assert (word + rest)[..|other|] == word[..|other|];
    }
  }

  lemma RemovalCommand(word: string, rest: string)
    requires RemovalWord(word)
    ensures Command(word + rest) == (Remove, |word|)
  {
    var t := word + rest;
    assert |word| >= 3 && t[0] == word[0] && t[1] == word[1] && t[2] == word[2];
    Starts(word, rest, "rm:");
    if word != "rm:" {
      assert t[3] == word[3];
      Starts(word, rest, "del:");
      if word != "del:" {
        Starts(word, rest, "remove:");
        Starts(word, rest, "delete:");
      }
    }
  }

  /** The four words for removing. */
  lemma RemovalRemoves<V(!new)>(read: Reading<V>, word: string, p: string)
    requires RemovalWord(word) && PlainPath(p)
    ensures Expand(read, word + p) == Acts(read, Remove, p, "")
  {
    hide Segments, Expand, Command, IsPath, Find, EndsTwice, Removal;
    SlashFirst(p);
    var t := word + p;
    RemovalCommand(word, p);
    assert forall i :: 0 <= i < |t| ==> t[i] == if i < |word| then word[i] else p[i - |word|];
    assert '{' !in word;
    NoBrace(t);
    OneClause(read, t);
    assert t[|word|..] == p;
  }

  lemma NoBrace(t: string)
    requires '{' !in t
    ensures Brace(t).None?
  {
  }

  // ---------------------------------------------------------------- values

  /** A path, an equals sign, and a value. */
  function Assignment(p: string, x: string): string { p + "=" + x }

  /** It is read as an assignment, not cut by white space or taken for an increment. */
  predicate PlainValue(p: string, x: string) {
    PlainPath(p) && Trimmed(Assignment(p, x)) && !EndsTwice(Assignment(p, x), '+') && !EndsTwice(Assignment(p, x), '-')
  }

  lemma EqualSplits(p: string, x: string)
    requires PlainPath(p)
    ensures var t := Assignment(p, x);
      Find(t, 0, '=') == |p| && t[..|p|] == p && t[|p| + 1..] == x && |p| < |t| && t[|p|] == '=' && |t| > 0 && t[0] == '/'
    ensures forall i :: 0 <= i < |p| ==> Assignment(p, x)[i] == p[i]
  {
    SlashFirst(p);
    FindIs(Assignment(p, x), 0, '=', |p|);
  }

  /** No brace in front of the equals sign: no shorthand. */
  lemma EqualStops(t: string, at: nat)
    requires at < |t| && t[at] == '=' && forall i :: 0 <= i < at ==> t[i] != '=' && t[i] != '{'
    ensures Brace(t).None?
  {
    HaltIs(t, 0, at);
  }

  lemma ValueSplits(form: Form, p: string, x: string)
    requires PlainValue(p, x) && form in {Assign, Time, AutoFile, TextFile, Base64File}
    ensures SplitRest(form, Assignment(p, x)) == Some(Clause(form, p, x))
  {
    hide EndsTwice, Removal, HasPrefix, Find, IsPath, Trimmed;
    EqualSplits(p, x);
    NoCommand(Assignment(p, x));
  }

  /** Text behind an equals sign is assigned. */
  lemma EqualAssigns<V(!new)>(read: Reading<V>, p: string, x: string)
    requires PlainValue(p, x)
    ensures Expand(read, p + "=" + x) == Acts(read, Assign, p, x)
  {
    hide Segments, Expand, Command, IsPath, SplitRest, Trimmed, EndsTwice;
    var t := Assignment(p, x);
    EqualSplits(p, x);
    EqualStops(t, |p|);
    NoCommand(t);
    ValueSplits(Assign, p, x);
    OneClause(read, t);
    assert t[0..] == t;
  }

  /** The commands in front of an assignment, and how each reads its value. */
  function ValueWord(form: Form): string {
    match form
    case Time => "time:"
    case AutoFile => "file:"
    case TextFile => "textfile:"
    case Base64File => "base64file:"
    case _ => ""
  }

  lemma ValueCommand(form: Form, rest: string)
    requires form in {Time, AutoFile, TextFile, Base64File}
    ensures Command(ValueWord(form) + rest) == (form, |ValueWord(form)|)
  {
    var word := ValueWord(form);
    var t := word + rest;
    assert t[0] == word[0] && t[1] == word[1] && t[2] == word[2] && t[3] == word[3] && t[4] == word[4];
    Starts(word, rest, word);
  }

  /** A command and the colon behind it, in front of an assignment. */
  lemma CommandAssigns<V(!new)>(read: Reading<V>, form: Form, p: string, x: string)
    requires PlainValue(p, x) && form in {Time, AutoFile, TextFile, Base64File}
    ensures Expand(read, ValueWord(form) + p + "=" + x) == Acts(read, form, p, x)
  {
    hide Segments, Expand, Command, IsPath, SplitRest, EndsTwice, Assignment, PlainPath, PlainValue, ValueWord, Brace, Trimmed, Find;
    var word, a := ValueWord(form), Assignment(p, x);
    WordInFront(form, p, x);
    ValueCommand(form, a);
    ValueSplits(form, p, x);
    OneClause(read, word + a);
    PathInside(p, x);
  }

  lemma PathInside(p: string, x: string)
    requires PlainValue(p, x)
    ensures IsPath(p)
  {
  }

  lemma WordInFront(form: Form, p: string, x: string)
    requires PlainValue(p, x) && form in {Time, AutoFile, TextFile, Base64File}
    ensures var word, t := ValueWord(form), ValueWord(form) + Assignment(p, x);
      Trimmed(t) && Brace(t).None? && t[|word|..] == Assignment(p, x) && t == word + p + "=" + x
  {
    hide Brace, ValueWord, EndsTwice, Find, IsPath, Halt;
    var word, a := ValueWord(form), Assignment(p, x);
    EqualSplits(p, x);
    WordIsPlain(form);
    BytesInFront(word, a);
    EqualStops(word + a, |word| + |p|);
  }

  lemma BytesInFront(word: string, a: string)
    ensures |word + a| == |word| + |a| && (word + a)[|word|..] == a
    ensures forall i :: 0 <= i < |word + a| ==> (word + a)[i] == if i < |word| then word[i] else a[i - |word|]
  {
  }

  lemma WordIsPlain(form: Form)
    requires form in {Time, AutoFile, TextFile, Base64File}
    ensures var w := ValueWord(form); |w| > 0 && !IsSpace(w[0]) && '=' !in w && '{' !in w
  {
  }

  // ---------------------------------------------------------------- braces around plain clauses

  /** No quote, bracket, brace, comma or line break. */
  predicate Calm(c: char) { c !in "{}[]\"',\n\0" }

  /** A clause that starts with its path and can stand in a list. */
  predicate CalmClause(c: string) { |c| > 0 && c[0] == '/' && Trimmed(c) && forall i :: 0 <= i < |c| ==> Calm(c[i]) }

  predicate CalmState(s: Scan) { Clean(s) && s.brackets == 0 }

  /** Over calm characters the scan goes on, and no value is left unstarted behind one that counts. */
  lemma {:induction false} ScanRuns(t: string, at: nat, s: Scan, n: nat) returns (after: Scan)
    requires at + n <= |t| && CalmState(s) && forall i :: at <= i < at + n ==> Calm(t[i])
    ensures CalmState(after) && ClauseEnd(t, at, s) == ClauseEnd(t, at + n, after)
    ensures n > 0 && !IsSpace(t[at + n - 1]) && t[at + n - 1] != '=' ==> !(after.inValue && !after.started)
    decreases n
  {
    hide Shorthands, StartsClause;
    if n == 0 {
      return s;
    }
    assert Calm(t[at]) && !Separates(t, at, s);
    var next := Turn(t, at, s);
    assert next.1 == 1 && CalmState(next.0);
    if n == 1 {
      after := next.0;
    } else {
      after := ScanRuns(t, at + 1, next.0, n - 1);
    }
  }

  /** Clauses with a comma or a line break behind each but the last. */
  datatype Listed = Listed(clause: string, separator: char)

  predicate IsListed(l: Listed) {
    CalmClause(l.clause) && (l.separator == ',' || (l.separator == '\n' && l.clause[|l.clause| - 1] != '='))
  }

  function Joined(ls: seq<Listed>): string
    requires |ls| > 0
  {
    if |ls| == 1 then ls[0].clause else ls[0].clause + [ls[0].separator] + Joined(ls[1..])
  }

  function EachExpanded<V(!new)>(read: Reading<V>, ls: seq<Listed>): Option<seq<Action<V>>> {
    if |ls| == 0 then Some([]) else
    match Expand(read, ls[0].clause)
    case None => None
    case Some(first) =>
      match EachExpanded(read, ls[1..])
      case None => None
      case Some(rest) => Some(first + rest)
  }

  lemma JoinedStarts(ls: seq<Listed>)
    requires |ls| > 0 && IsListed(ls[0])
    ensures |Joined(ls)| >= |ls[0].clause| > 0 && Joined(ls)[0] == '/' && Joined(ls)[..|ls[0].clause|] == ls[0].clause
    ensures |ls| > 1 ==> |Joined(ls)| > |ls[0].clause| && Joined(ls)[|ls[0].clause|] == ls[0].separator
                         && Joined(ls)[|ls[0].clause| + 1..] == Joined(ls[1..])
  {
  }

  /** The first clause of the rest of a text, and what follows it. */
  lemma FirstStands(t: string, from: nat, ls: seq<Listed>)
    requires from <= |t| && |ls| > 0 && (forall i :: 0 <= i < |ls| ==> IsListed(ls[i])) && t[from..] == Joined(ls)
    ensures var c := ls[0].clause; var end := from + |c|;
      && from < end <= |t| && t[from..end] == c && (forall i :: from <= i < end ==> t[i] == c[i - from])
      && (|ls| > 1 <==> end < |t|)
      && (|ls| > 1 ==> end + 1 < |t| && t[end] == ls[0].separator && t[end + 1] == '/' && t[end + 1..] == Joined(ls[1..]))
  {
    hide IsListed, Joined;
    var c := ls[0].clause;
    assert IsListed(ls[0]);
    JoinedStarts(ls);
    assert t[from..][..|c|] == t[from..from + |c|];
    if |ls| > 1 {
      assert IsListed(ls[1..][0]);
      JoinedStarts(ls[1..]);
      assert t[from + |c| + 1..] == t[from..][|c| + 1..];
    } else {
      JoinedOne(ls);
    }
  }

  lemma JoinedOne(ls: seq<Listed>)
    requires |ls| == 1
    ensures Joined(ls) == ls[0].clause
  {
  }

  /** Where the first clause of the rest of a text ends. */
  lemma FirstEnds(t: string, from: nat, ls: seq<Listed>)
    requires from <= |t| && |ls| > 0 && (forall i :: 0 <= i < |ls| ==> IsListed(ls[i])) && t[from..] == Joined(ls)
    ensures var end := from + |ls[0].clause|;
      && end <= |t| && t[from..end] == ls[0].clause && (|ls| > 1 <==> end < |t|) && (|ls| > 1 ==> t[end + 1..] == Joined(ls[1..]))
      && ClauseEnd(t, from, START).0 == end && Clean(ClauseEnd(t, from, START).1)
  {
    hide Shorthands, Turn, SpaceEnd, Trimmed, Joined;
    var c := ls[0].clause;
    var end := from + |c|;
    FirstStands(t, from, ls);
    assert IsListed(ls[0]);
    var after := ScanRuns(t, from, START, |c|);
    if |ls| > 1 {
      assert StartsClause(t, end + 1) by { SpaceEndIs(t, end + 1, end + 1); }
      LastCounts(c);
    }
  }

  lemma LastCounts(c: string)
    requires CalmClause(c)
    ensures !IsSpace(c[|c| - 1])
  {
  }

  lemma {:induction false} ListExpands<V(!new)>(read: Reading<V>, t: string, from: nat, ls: seq<Listed>)
    requires from <= |t| && |ls| > 0 && (forall i :: 0 <= i < |ls| ==> IsListed(ls[i])) && t[from..] == Joined(ls)
    ensures ExpandAll(read, t, from) == EachExpanded(read, ls)
    decreases |ls|
  {
    hide Expand, ClauseEnd, IsListed, Joined, Trim;
    var c := ls[0].clause;
    var end := from + |c|;
    FirstEnds(t, from, ls);
    assert IsListed(ls[0]);
    ClauseStays(ls[0]);
    ExpandAllStep(read, t, from);
    if |ls| > 1 {
      ListExpands(read, t, end + 1, ls[1..]);
    } else {
      assert ls[1..] == [] && ExpandAll(read, t, |t|) == Some([]);
    }
  }

  lemma ClauseStays(l: Listed)
    requires IsListed(l)
    ensures Trim(l.clause) == l.clause != ""
  {
    TrimmedStays(l.clause);
  }

  /** A path in front of braces: the clauses between them, one by one, under the path. */
  lemma BracesDistribute<V(!new)>(read: Reading<V>, p: string, ls: seq<Listed>)
    requires PlainPath(p) && |ls| > 0 && forall i :: 0 <= i < |ls| ==> IsListed(ls[i])
    ensures Expand(read, p + "{" + Joined(ls) + "}")
         == match EachExpanded(read, ls) case None => None case Some(actions) => Some(AllDeeper(Segments(p), actions))
  {
    hide Segments, IsListed, Joined, EachExpanded, ClauseEnd, ParseOne, Trim;
    var content := Joined(ls);
    var t := p + "{" + content + "}";
    SlashFirst(p);
    assert IsListed(ls[0]);
    JoinedStarts(ls);
    BraceIs(p, content);
    TrimmedStays(t);
    assert content[0..] == content;
    ListExpands(read, content, 0, ls);
  }

  lemma BraceIs(p: string, content: string)
    requires PlainPath(p) && |content| > 0 && content[0] == '/'
    ensures var t := p + "{" + content + "}";
      Trimmed(t) && Brace(t) == Some(|p|) && t[..|p|] == p && t[|p| + 1..|t| - 1] == content
  {
    hide SpaceEnd;
    SlashFirst(p);
    var t := p + "{" + content + "}";
    assert t[|p|] == '{' && t[|p| + 1] == '/' && forall i :: 0 <= i < |p| ==> t[i] == p[i];
    SpaceEndIs(t, |p| + 1, |p| + 1);
    HaltIs(t, 0, |p|);
  }
}
