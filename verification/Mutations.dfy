/** Mutation expressions (src/lql_direct_actions.c): plain clauses, and brace shorthand that nests clauses under a
    common path. A shorthand means the clauses it abbreviates, each written out under its full path. */
module Mutations {
  import opened Wrappers
  import opened MutationPath

  datatype Form = TextFile | Base64File | AutoFile | Time | Remove | Increment | Decrement | Assign

  /** A clause taken apart: its path text, and the text of its value (empty where the form has none). */
  datatype Clause = Clause(form: Form, path: string, value: string)

  datatype Action<V> = Action(form: Form, segments: seq<string>, value: V)

  /** How the text of a value is read, or refused: numbers, times and files are not part of this model. */
  type Reading<!V> = (Form, string) -> Option<V>

  // ---------------------------------------------------------------- plain clauses

  predicate HasPrefix(s: string, prefix: string) { prefix <= s }

  predicate EndsTwice(s: string, c: char) { |s| >= 2 && s[|s| - 2] == c && s[|s| - 1] == c }

  predicate Removal(s: string) {
    HasPrefix(s, "rm:") || HasPrefix(s, "remove:") || HasPrefix(s, "delete:") || HasPrefix(s, "del:")
  }

  /** The command in front of a clause, and its length. */
  function Command(t: string): (r: (Form, nat))
    ensures r.1 <= |t| && (r.1 == 0 <==> r.0 == Assign)
  {
    if HasPrefix(t, "textfile:") then (TextFile, 9)
    else if HasPrefix(t, "base64file:") then (Base64File, 11)
    else if HasPrefix(t, "file:") then (AutoFile, 5)
    else if HasPrefix(t, "time:") then (Time, 5)
    else if HasPrefix(t, "rm:") then (Remove, 3)
    else if HasPrefix(t, "remove:") || HasPrefix(t, "delete:") then (Remove, 7)
    else if HasPrefix(t, "del:") then (Remove, 4)
    else (Assign, 0)
  }

  /** src/lql_direct_actions.c:473-609 and 634-696: what the rest of a clause may be depends on the command in front of it. */
  function SplitRest(form: Form, rest: string): Option<Clause> {
    var equal := Find(rest, 0, '=');
    if form == Remove then Some(Clause(Remove, rest, ""))
    else if form != Assign && (Removal(rest) || (form != Time && HasPrefix(rest, "time:")) || EndsTwice(rest, '+') || EndsTwice(rest, '-')) then None
    else if EndsTwice(rest, '+') then Some(Clause(Increment, rest[..|rest| - 2], ""))
    else if EndsTwice(rest, '-') then Some(Clause(Decrement, rest[..|rest| - 2], ""))
    else if equal == |rest| then None
    else Some(Clause(form, rest[..equal], rest[equal + 1..]))
  }

  function Split(t: string): Option<Clause> {
    var command := Command(t);
    SplitRest(command.0, t[command.1..])
  }

  function ReadClause<V(!new)>(read: Reading<V>, clause: Clause): Option<Action<V>> {
    if !IsPath(clause.path) then None
    else match read(clause.form, clause.value)
      case None => None
      case Some(v) => Some(Action(clause.form, Segments(clause.path), v))
  }

  /** src/lql_direct_actions.c:611-715, on text without space around it. */
  function ParseOne<V(!new)>(read: Reading<V>, t: string): Option<Action<V>> {
    match Split(t)
    case None => None
    case Some(clause) => ReadClause(read, clause)
  }

  // ---------------------------------------------------------------- writing a clause out under a path

  /** The clause with the prefix written in front of its path. */
  function Under(prefix: string, clause: string): string {
    var slash := Find(clause, 0, '/');
    clause[..slash] + prefix + clause[slash..]
  }

  function Deeper<V>(prefix: seq<string>, action: Action<V>): Action<V> {
    Action(action.form, prefix + action.segments, action.value)
  }

  lemma {:induction false} FindAfter(a: string, b: string, c: char)
    requires c !in a
    ensures Find(a + b, 0, c) == |a| + Find(b, 0, c)
  {
    FindIs(a + b, 0, c, |a| + Find(b, 0, c));
  }

  lemma PrefixUnder(prefix: string, t: string, word: string)
    requires |prefix| > 0 && prefix[0] == '/' && '/' in t && '/' !in word
    ensures HasPrefix(Under(prefix, t), word) <==> HasPrefix(t, word)
  {
    var slash := Find(t, 0, '/');
    var u := Under(prefix, t);
    if |word| > slash {
      assert u[slash] == '/' && t[slash] == '/' && word[slash] != '/';
    } else {
      assert u[..|word|] == t[..|word|];
    }
  }

  lemma EndsUnder(prefix: string, t: string, c: char)
    requires '/' in t && c != '/'
    ensures EndsTwice(Under(prefix, t), c) <==> EndsTwice(t, c)
  {
    var slash := Find(t, 0, '/');
    var u := Under(prefix, t);
    assert u[|u| - 1] == t[|t| - 1];
    if slash + 2 <= |t| {
      assert u[|u| - 2] == t[|t| - 2];
    }
  }

  lemma CommandUnder(prefix: string, t: string)
    requires |prefix| > 0 && prefix[0] == '/' && '/' in t
    ensures Command(Under(prefix, t)) == Command(t)
  {
    hide Under, HasPrefix;
    PrefixUnder(prefix, t, "textfile:");
    PrefixUnder(prefix, t, "base64file:");
    PrefixUnder(prefix, t, "file:");
    PrefixUnder(prefix, t, "time:");
    PrefixUnder(prefix, t, "rm:");
    PrefixUnder(prefix, t, "remove:");
    PrefixUnder(prefix, t, "delete:");
    PrefixUnder(prefix, t, "del:");
  }

  /** Commands hold no slash. */
  lemma CommandBeforeSlash(t: string)
    ensures Command(t).1 <= Find(t, 0, '/') && Command(t).1 <= Find(t, 0, '=') && Command(t).1 <= Find(t, 0, '{')
  {
    var n := Command(t).1;
    forall i | 0 <= i < n ensures t[i] != '/' && t[i] != '=' && t[i] != '{' {
      if HasPrefix(t, "textfile:") { assert t[i] == "textfile:"[i]; }
      else if HasPrefix(t, "base64file:") { assert t[i] == "base64file:"[i]; }
      else if HasPrefix(t, "file:") { assert t[i] == "file:"[i]; }
      else if HasPrefix(t, "time:") { assert t[i] == "time:"[i]; }
      else if HasPrefix(t, "rm:") { assert t[i] == "rm:"[i]; }
      else if HasPrefix(t, "remove:") { assert t[i] == "remove:"[i]; }
      else if HasPrefix(t, "delete:") { assert t[i] == "delete:"[i]; }
      else if HasPrefix(t, "del:") { assert t[i] == "del:"[i]; }
    }
  }

  lemma UnderDrop(prefix: string, t: string, n: nat)
    requires n <= Find(t, 0, '/')
    ensures Under(prefix, t)[n..] == Under(prefix, t[n..])
  {
    hide Find;
    var slash := Find(t, 0, '/');
    FindIs(t[n..], 0, '/', slash - n);
    assert t[n..][..slash - n] == t[n..slash] && t[n..][slash - n..] == t[slash..];
    assert Under(prefix, t)[n..] == t[n..slash] + prefix + t[slash..];
  }

  lemma TakeInside(prefix: string, t: string, slash: nat, n: nat)
    requires slash <= n <= |t|
    ensures t[..n][..slash] == t[..slash] && t[..n][slash..] == t[slash..n]
    ensures (t[..slash] + prefix + t[slash..])[..n + |prefix|] == t[..slash] + prefix + t[slash..n]
  {
  }

  lemma UnderTake(prefix: string, t: string, n: nat)
    requires Find(t, 0, '/') < n <= |t|
    ensures Under(prefix, t)[..n + |prefix|] == Under(prefix, t[..n])
  {
    hide Find;
    var slash := Find(t, 0, '/');
    FindIs(t[..n], 0, '/', slash);
    TakeInside(prefix, t, slash, n);
  }

  /** A prefix holds no equals sign, and none of its braces could open a shorthand. */
  predicate Harmless(prefix: string) {
    IsPath(prefix) && Trimmed(prefix) && '=' !in prefix && forall i :: 0 <= i < |prefix| ==> Quiet(prefix, i)
  }

  predicate Quiet(t: string, i: nat)
    requires i < |t|
  {
    t[i] == '{' ==> var next := SpaceEnd(t, i + 1); next < |t| && t[next] == ','
  }

  function SpaceEnd(t: string, i: nat): (r: nat)
    requires i <= |t|
    ensures i <= r <= |t| && (r < |t| ==> !IsSpace(t[r])) && forall j :: i <= j < r ==> IsSpace(t[j])
    decreases |t| - i
  {
    if i < |t| && IsSpace(t[i]) then SpaceEnd(t, i + 1) else i
  }

  /** A path that is one stays one under a harmless prefix, and its segments follow the prefix's. */
  lemma PathUnder(prefix: string, path: string)
    requires Harmless(prefix) && IsPath(path)
    ensures IsPath(Under(prefix, path)) && Segments(Under(prefix, path)) == Segments(prefix) + Segments(path)
  {
    hide SegmentsOf, TrimLeft, TrimRight;
    var slash := Find(path, 0, '/');
    LeadingSpace(path);
    DropSpace(path, slash);
    assert Under(prefix, path)[..slash] == path[..slash] && Under(prefix, path)[slash..] == prefix + path[slash..];
    DropSpace(Under(prefix, path), slash);
    TrimRightAfter(prefix, path[slash..]);
    TrimIsTrimmed(path);
    TrimmedStays(prefix);
    TrimmedStays(Trim(path));
    SegmentsJoin(prefix, Trim(path));
    TrimIsTrimmed(Under(prefix, path));
    TrimmedStays(prefix + Trim(path));
  }

  lemma {:induction false} LeadingSpace(path: string)
    requires |TrimLeft(path)| > 0 && TrimLeft(path)[0] == '/'
    ensures var slash := Find(path, 0, '/');
            slash < |path| && (forall i :: 0 <= i < slash ==> IsSpace(path[i]))
    decreases |path|
  {
    if path[0] != '/' {
      LeadingSpace(path[1..]);
      FindAfter(path[..1], path[1..], '/');
      assert path[..1] + path[1..] == path;
    }
  }

  lemma {:induction false} DropSpace(s: string, n: nat)
    requires n < |s| && !IsSpace(s[n]) && forall i :: 0 <= i < n ==> IsSpace(s[i])
    ensures TrimLeft(s) == s[n..]
    decreases n
  {
    if n > 0 {
      DropSpace(s[1..], n - 1);
    }
  }

  lemma {:induction false} TrimRightAfter(a: string, b: string)
    requires |b| > 0 && !IsSpace(b[0])
    ensures TrimRight(a + b) == a + TrimRight(b) && |TrimRight(b)| > 0 && TrimRight(b)[0] == b[0]
    decreases |b|
  {
    if IsSpace(b[|b| - 1]) {
      assert (a + b)[..|a + b| - 1] == a + b[..|b| - 1];
      TrimRightAfter(a, b[..|b| - 1]);
    }
  }

  lemma PathHoldsSlash(path: string, n: nat, rest: string)
    requires n <= |rest| && path == rest[..n] && IsPath(path)
    ensures Find(rest, 0, '/') == Find(path, 0, '/') < n
    ensures forall i :: 0 <= i < Find(rest, 0, '/') ==> IsSpace(rest[i])
  {
    hide TrimLeft, TrimRight, Find;
    LeadingSpace(path);
    FindIs(rest, 0, '/', Find(path, 0, '/'));
  }

  lemma SplitUnder(prefix: string, form: Form, rest: string)
    requires Harmless(prefix) && SplitRest(form, rest).Some? && IsPath(SplitRest(form, rest).value.path)
    ensures var clause := SplitRest(form, rest).value;
            SplitRest(form, Under(prefix, rest)) == Some(clause.(path := Under(prefix, clause.path)))
  {
    hide IsPath, Find, HasPrefix, EndsTwice, Under;
    var clause := SplitRest(form, rest).value;
    var n := |clause.path|;
    PathIsInFront(form, rest);
    PathHoldsSlash(clause.path, n, rest);
    SlashIsThere(rest);
    PrefixStarts(prefix);
    PrefixUnder(prefix, rest, "rm:");
    PrefixUnder(prefix, rest, "remove:");
    PrefixUnder(prefix, rest, "delete:");
    PrefixUnder(prefix, rest, "del:");
    PrefixUnder(prefix, rest, "time:");
    EndsUnder(prefix, rest, '+');
    EndsUnder(prefix, rest, '-');
    UnderTake(prefix, rest, n);
    UnderLength(prefix, rest);
    var under := Under(prefix, rest);
    assert Removal(under) == Removal(rest);
    if form == Remove {
    } else if EndsTwice(rest, '+') || EndsTwice(rest, '-') {
      assert n + |prefix| == |under| - 2;
    } else {
      assert n == Find(rest, 0, '=');
      EqualUnder(prefix, rest);
      assert SplitRest(form, under) == Some(Clause(form, under[..n + |prefix|], under[n + |prefix| + 1..]));
    }
  }

  lemma PathIsInFront(form: Form, rest: string)
    requires SplitRest(form, rest).Some?
    ensures var path := SplitRest(form, rest).value.path;
            |path| <= |rest| && path == rest[..|path|] && (SplitRest(form, rest).value.form == Remove ==> path == rest)
            && (form != Remove && (EndsTwice(rest, '+') || EndsTwice(rest, '-')) ==> |path| == |rest| - 2)
  {
    hide HasPrefix;
  }

  lemma SlashIsThere(t: string)
    requires Find(t, 0, '/') < |t|
    ensures '/' in t
  {
  }

  lemma PrefixStarts(prefix: string)
    requires Harmless(prefix)
    ensures |prefix| > 1 && prefix[0] == '/'
  {
    TrimmedStays(prefix);
  }

  lemma UnderLength(prefix: string, t: string)
    ensures |Under(prefix, t)| == |prefix| + |t|
  {
  }

  lemma EqualUnder(prefix: string, rest: string)
    requires Harmless(prefix) && Find(rest, 0, '/') < Find(rest, 0, '=') < |rest|
    ensures var equal := Find(rest, 0, '=');
            Find(Under(prefix, rest), 0, '=') == equal + |prefix| < |Under(prefix, rest)|
            && Under(prefix, rest)[equal + |prefix| + 1..] == rest[equal + 1..]
  {
    FindIs(Under(prefix, rest), 0, '=', Find(rest, 0, '=') + |prefix|);
  }

  /** A clause read alone reads, written under a harmless prefix, as the same action under the prefix's segments. */
  lemma ClauseUnder<V(!new)>(read: Reading<V>, prefix: string, t: string)
    requires Harmless(prefix) && ParseOne(read, t).Some?
    ensures ParseOne(read, Under(prefix, t)) == Some(Deeper(Segments(prefix), ParseOne(read, t).value))
  {
    hide Harmless, SplitRest, Command, IsPath, Segments, Under, Find;
    var n := Command(t).1;
    HeadIsPlain(read, t);
    SlashIsThere(t);
    PrefixStarts(prefix);
    CommandUnder(prefix, t);
    CommandBeforeSlash(t);
    UnderDrop(prefix, t, n);
    UnderLength(prefix, t);
    SplitUnder(prefix, Command(t).0, t[n..]);
    PathUnder(prefix, Split(t).value.path);
    assert ReadClause(read, Split(t).value).Some?;
  }

  /** Before the first slash of a clause there is only its command and space. */
  lemma HeadIsPlain<V(!new)>(read: Reading<V>, t: string)
    requires ParseOne(read, t).Some?
    ensures Find(t, 0, '/') < |t| && Find(t, 0, '/') <= Find(t, 0, '=') && Find(t, 0, '/') <= Find(t, 0, '{')
  {
    hide IsPath, Find, Segments, SplitRest, Command;
    var n := Command(t).1;
    var rest := t[n..];
    var path := Split(t).value.path;
    assert IsPath(path);
    PathIsInFront(Command(t).0, rest);
    CommandBeforeSlash(t);
    PathHoldsSlash(path, |path|, rest);
    var slash := n + Find(rest, 0, '/');
    FindIs(t, 0, '/', slash);
    forall i | 0 <= i < slash ensures t[i] != '=' && t[i] != '{' {
      if n <= i {
        assert t[i] == rest[i - n];
      }
    }
    FindPast(t, '=', slash);
    FindPast(t, '{', slash);
  }

  lemma FindPast(t: string, c: char, n: nat)
    requires n <= |t| && forall i :: 0 <= i < n ==> t[i] != c
    ensures n <= Find(t, 0, c)
  {
  }
}
