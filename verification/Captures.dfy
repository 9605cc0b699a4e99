/** What a capture key asks of a record: where in the compact text the last value on its path lies. */
module Captures {
  import opened Wrappers
  import opened Digits
  import opened JsonSyntax
  import opened Query

  /** lql_json_capture_span of a key that was found. */
  datatype Span = Span(offset: nat, len: nat)

  /** A segment of a capture key and a member: literal keys and indexes, no wildcards. */
  ghost predicate CaptureStep(segment: string, key: Key, index: nat) {
    match key
    case NoKey => |segment| > 0 && AllDigits(segment) && NatOf(segment) == index
    case Named(chars, _, _) => AreItems(chars) && Meaning(chars) == segment
  }

  // ---------------------------------------------------------------- the spans of a scan

  /** The keys that the step to this member keeps. */
  ghost function SteppedKeys(keys: seq<seq<string>>, active: set<nat>, key: Key, depth: nat, index: nat): set<nat> {
    set i | i in active && i < |keys| && depth < |keys[i]| && CaptureStep(keys[i][depth], key, index)
  }

  function Ends(keys: seq<seq<string>>, matched: set<nat>, depth: nat): (r: set<nat>)
    ensures forall i :: i in r ==> i < |keys|
  {
    set i | i in matched && i < |keys| && |keys[i]| == depth + 1
  }

  function GoOn(keys: seq<seq<string>>, matched: set<nat>, depth: nat): set<nat> {
    set i | i in matched && i < |keys| && |keys[i]| != depth + 1
  }

  /** How far a text moves the output. */
  function Size(writing: bool, text: string): nat { if writing then |text| else 0 }

  /** The spans below a value whose compact text starts at the offset. */
  ghost function Caught(writing: bool, keys: seq<seq<string>>, active: set<nat>, v: Value, depth: nat, at: nat): map<nat, Span>
    decreases v, 0
  {
    if v.Nest? then CaughtMembers(writing, keys, active, v.members, depth, 0, at + Size(writing, Open(v.braces))) else map[]
  }

  ghost function CaughtMembers(writing: bool, keys: seq<seq<string>>, active: set<nat>, ms: Members, depth: nat, index: nat, at: nat)
    : map<nat, Span>
    decreases ms, 0
  {
    var first := CaughtMember(writing, keys, active, ms.member, depth, index, at);
    if ms.One? then first
    else first + CaughtMembers(writing, keys, active, ms.rest, depth, index + 1, NextMember(writing, ms.member, at))
  }

  /** Where the text of the member after this one starts: there is a comma between them. */
  function NextMember(writing: bool, m: Member, at: nat): nat {
    at + Size(writing, PrintMember(StripMember(m))) + Size(writing, ",")
  }

  ghost function CaughtMember(writing: bool, keys: seq<seq<string>>, active: set<nat>, m: Member, depth: nat, index: nat, at: nat)
    : map<nat, Span>
    decreases m, 0
  {
    CaughtValue(writing, keys, SteppedKeys(keys, active, m.key, depth, index), m.value, depth, at + Size(writing, PrintKey(StripMember(m).key)))
  }

  /** A value that a step led to: what is found below it, then the keys that end here. */
  ghost function CaughtValue(writing: bool, keys: seq<seq<string>>, matched: set<nat>, v: Value, depth: nat, at: nat): map<nat, Span>
    decreases v, 1
  {
    Caught(writing, keys, GoOn(keys, matched, depth), v, depth + 1, at)
    + Everywhere(Ends(keys, matched, depth), Span(at, Size(writing, Print(Strip(v)))))
  }

  function Everywhere(found: set<nat>, span: Span): map<nat, Span> { map i | i in found :: span }

  // ---------------------------------------------------------------- the last value on a path

  /** The route to the last value on the path, in document order. */
  ghost function LastRoute(v: Value, path: seq<string>): Option<seq<nat>>
    decreases v
  {
    if |path| == 0 then Some([]) else if v.Nest? then LastAmong(v.members, path, 0) else None
  }

  ghost function LastAmong(ms: Members, path: seq<string>, index: nat): Option<seq<nat>>
    requires |path| > 0
    decreases ms
  {
    var later := if ms.More? then LastAmong(ms.rest, path, index + 1) else None;
    if later.Some? then later
    else if !CaptureStep(path[0], ms.member.key, index) then None
    else var below := LastRoute(ms.member.value, path[1..]);
         if below.None? then None else Some([index] + below.value)
  }

  /** The value at the end of the route, if every segment allows its step. */
  ghost function Along(v: Value, route: seq<nat>, path: seq<string>): Option<Value>
    decreases route
  {
    if |route| == 0 || |path| == 0 then (if |route| == |path| then Some(v) else None)
    else if Child(v, route[0]).None? || !CaptureStep(path[0], Child(v, route[0]).value.key, route[0]) then None
    else Along(Child(v, route[0]).value.value, route[1..], path[1..])
  }

  predicate NotAfter(a: seq<nat>, b: seq<nat>)
    decreases |a|
  {
    |a| == 0 || (|b| > 0 && (a[0] < b[0] || (a[0] == b[0] && NotAfter(a[1..], b[1..]))))
  }

  /** The route leads to a value on the path, and no other such route comes later. */
  ghost predicate IsLast(v: Value, path: seq<string>, route: seq<nat>) {
    Along(v, route, path).Some? && forall other :: Along(v, other, path).Some? ==> NotAfter(other, route)
  }

  lemma {:induction false} ChildOf(ms: Members, i: nat)
    requires ms.More? && i > 0
    ensures ChildAt(ms, i) == ChildAt(ms.rest, i - 1)
  {
  }

  /** A route into members from the index on. */
  ghost function AlongMembers(ms: Members, index: nat, route: seq<nat>, path: seq<string>): Option<Value>
    requires |path| > 0
  {
    if |route| == 0 || route[0] < index || ChildAt(ms, route[0] - index).None?
       || !CaptureStep(path[0], ChildAt(ms, route[0] - index).value.key, route[0]) then None
    else Along(ChildAt(ms, route[0] - index).value.value, route[1..], path[1..])
  }

  lemma AlongIsMembers(v: Value, route: seq<nat>, path: seq<string>)
    requires v.Nest? && |path| > 0
    ensures Along(v, route, path) == AlongMembers(v.members, 0, route, path)
  {
  }

  lemma AlongRest(ms: Members, index: nat, route: seq<nat>, path: seq<string>)
    requires |path| > 0
    ensures |route| > 0 && route[0] > index && ms.More? ==>
              AlongMembers(ms, index, route, path) == AlongMembers(ms.rest, index + 1, route, path)
    ensures ms.More? && AlongMembers(ms.rest, index + 1, route, path).Some? ==> |route| > 0 && route[0] > index
    ensures |route| > 0 && route[0] > index && ms.One? ==> AlongMembers(ms, index, route, path).None?
    ensures AlongMembers(ms, index, route, path).Some? ==> |route| > 0 && route[0] >= index
    ensures |route| > 0 && route[0] == index ==>
              AlongMembers(ms, index, route, path)
              == if !CaptureStep(path[0], ms.member.key, index) then None else Along(ms.member.value, route[1..], path[1..])
  {
    hide CaptureStep, Along;
    if |route| > 0 && route[0] > index && ms.More? {
      ChildOf(ms, route[0] - index);
    }
  }

  /** The last route is one, and the last; without it there is none. */
  lemma {:induction false} LastIsLast(v: Value, path: seq<string>)
    ensures LastRoute(v, path).Some? ==> IsLast(v, path, LastRoute(v, path).value)
    ensures LastRoute(v, path).None? ==> forall route :: Along(v, route, path).None?
    decreases v
  {
    hide CaptureStep;
    if |path| == 0 {
      forall other | Along(v, other, path).Some? ensures NotAfter(other, []) {
      }
    } else if v.Nest? {
      LastIsLastAmong(v.members, path, 0);
      forall route ensures Along(v, route, path) == AlongMembers(v.members, 0, route, path) {
        AlongIsMembers(v, route, path);
      }
    } else {
      forall route ensures Along(v, route, path).None? {
        assert |route| > 0 ==> Child(v, route[0]).None?;
      }
    }
  }

  lemma {:induction false} LastIsLastAmong(ms: Members, path: seq<string>, index: nat)
    requires |path| > 0
    ensures LastAmong(ms, path, index).Some? ==> IsLastAmong(ms, path, index, LastAmong(ms, path, index).value)
    ensures LastAmong(ms, path, index).None? ==> NoneAmong(ms, path, index)
    decreases ms
  {
    hide CaptureStep, Along, AlongMembers, LastRoute;
    var later := if ms.More? then LastAmong(ms.rest, path, index + 1) else None;
    if ms.More? {
      LastIsLastAmong(ms.rest, path, index + 1);
    }
    if later.Some? {
      LaterIsLast(ms, path, index, later.value);
    } else {
      LastIsLast(ms.member.value, path[1..]);
      FirstIsLast(ms, path, index);
    }
  }

  ghost predicate IsLastAmong(ms: Members, path: seq<string>, index: nat, route: seq<nat>)
    requires |path| > 0
  {
    AlongMembers(ms, index, route, path).Some?
    && forall other :: AlongMembers(ms, index, other, path).Some? ==> NotAfter(other, route)
  }

  ghost predicate NoneAmong(ms: Members, path: seq<string>, index: nat)
    requires |path| > 0
  {
    forall route :: AlongMembers(ms, index, route, path).None?
  }

  lemma LaterIsLast(ms: Members, path: seq<string>, index: nat, route: seq<nat>)
    requires |path| > 0 && ms.More? && IsLastAmong(ms.rest, path, index + 1, route)
    ensures IsLastAmong(ms, path, index, route)
  {
    hide CaptureStep, Along, AlongMembers;
    AlongRest(ms, index, route, path);
    assert AlongMembers(ms.rest, index + 1, route, path).Some?;
    forall other | AlongMembers(ms, index, other, path).Some? ensures NotAfter(other, route) {
      AlongRest(ms, index, other, path);
      if other[0] > index {
        assert AlongMembers(ms.rest, index + 1, other, path).Some?;
      }
    }
  }

  /** No later member has the path: the first one decides. */
  lemma FirstIsLast(ms: Members, path: seq<string>, index: nat)
    requires |path| > 0 && (ms.More? ==> NoneAmong(ms.rest, path, index + 1))
    requires var below := LastRoute(ms.member.value, path[1..]);
      && (below.Some? ==> IsLast(ms.member.value, path[1..], below.value))
      && (below.None? ==> forall route :: Along(ms.member.value, route, path[1..]).None?)
    ensures var below := LastRoute(ms.member.value, path[1..]);
      if CaptureStep(path[0], ms.member.key, index) && below.Some?
      then IsLastAmong(ms, path, index, [index] + below.value)
      else NoneAmong(ms, path, index)
  {
    hide CaptureStep, Along, AlongMembers, LastRoute;
    var below := LastRoute(ms.member.value, path[1..]);
    if CaptureStep(path[0], ms.member.key, index) && below.Some? {
      var route := [index] + below.value;
      assert route[1..] == below.value;
      AlongRest(ms, index, route, path);
      forall other | AlongMembers(ms, index, other, path).Some? ensures NotAfter(other, route) {
        AlongRest(ms, index, other, path);
      }
    } else {
      forall route ensures AlongMembers(ms, index, route, path).None? {
        AlongRest(ms, index, route, path);
      }
    }
  }

  // ---------------------------------------------------------------- the spans name the last values

  /** The last value on the path. */
  ghost function LastValue(v: Value, path: seq<string>): Option<Value> {
    if LastRoute(v, path).None? then None else Along(v, LastRoute(v, path).value, path)
  }

  ghost function LastValueAmong(ms: Members, path: seq<string>, index: nat): Option<Value>
    requires |path| > 0
  {
    if LastAmong(ms, path, index).None? then None else AlongMembers(ms, index, LastAmong(ms, path, index).value, path)
  }

  lemma LastValueIs(v: Value, path: seq<string>)
    ensures LastValue(v, path)
         == if |path| == 0 then Some(v) else if v.Nest? then LastValueAmong(v.members, path, 0) else None
  {
    hide CaptureStep, LastAmong, AlongMembers;
    if |path| > 0 && v.Nest? && LastRoute(v, path).Some? {
      AlongIsMembers(v, LastRoute(v, path).value, path);
    }
  }

  lemma LastValueAmongIs(ms: Members, path: seq<string>, index: nat)
    requires |path| > 0
    ensures var later := if ms.More? then LastValueAmong(ms.rest, path, index + 1) else None;
      LastValueAmong(ms, path, index)
      == if later.Some? then later
         else if CaptureStep(path[0], ms.member.key, index) then LastValue(ms.member.value, path[1..]) else None
  {
    hide CaptureStep, Along, AlongMembers, LastRoute;
    if ms.More? {
      LastIsLastAmong(ms.rest, path, index + 1);
    }
    var r := LastAmong(ms, path, index);
    if r.Some? {
      AlongRest(ms, index, r.value, path);
      if ms.One? || LastAmong(ms.rest, path, index + 1).None? {
        assert r.value[1..] == LastRoute(ms.member.value, path[1..]).value;
      }
    }
  }

  /** The key was caught exactly when there is a node; with a writer the span cuts its text out of the text at the offset. */
  ghost predicate Names(writing: bool, text: string, at: nat, caught: map<nat, Span>, i: nat, node: Option<Value>) {
    && (i in caught <==> node.Some?)
    && (writing && node.Some? ==>
          && at <= caught[i].offset && caught[i].offset + caught[i].len <= at + |text|
          && text[caught[i].offset - at..caught[i].offset - at + caught[i].len] == Print(Strip(node.value)))
  }

  lemma NamesWithin(writing: bool, before: string, text: string, after: string, at: nat, caught: map<nat, Span>, i: nat, node: Option<Value>)
    requires Names(writing, text, at + Size(writing, before), caught, i, node)
    ensures Names(writing, before + text + after, at, caught, i, node)
  {
    hide Print, Strip;
    if writing && node.Some? {
      var from := caught[i].offset - at;
      var whole := before + text + after;
      assert whole[from..from + caught[i].len] == text[from - |before|..from - |before| + caught[i].len];
    }
  }

  lemma {:induction false} OnlyActive(writing: bool, keys: seq<seq<string>>, active: set<nat>, v: Value, depth: nat, at: nat)
    ensures Caught(writing, keys, active, v, depth, at).Keys <= active
    decreases v, 0
  {
    hide CaptureStep, Print, Strip;
    if v.Nest? {
      OnlyActiveAmong(writing, keys, active, v.members, depth, 0, at + Size(writing, Open(v.braces)));
    }
  }

  lemma {:induction false} OnlyActiveAmong(writing: bool, keys: seq<seq<string>>, active: set<nat>, ms: Members, depth: nat, index: nat, at: nat)
    ensures CaughtMembers(writing, keys, active, ms, depth, index, at).Keys <= active
    decreases ms, 0
  {
    hide Print, PrintKey, PrintMember, StripMember, CaughtValue;
    OnlyMatched(writing, keys, SteppedKeys(keys, active, ms.member.key, depth, index), ms.member.value, depth,
                at + Size(writing, PrintKey(StripMember(ms.member).key)));
    if ms.More? {
      OnlyActiveAmong(writing, keys, active, ms.rest, depth, index + 1, NextMember(writing, ms.member, at));
    }
  }

  lemma {:induction false} OnlyMatched(writing: bool, keys: seq<seq<string>>, matched: set<nat>, v: Value, depth: nat, at: nat)
    ensures CaughtValue(writing, keys, matched, v, depth, at).Keys <= matched
    decreases v, 1
  {
    hide Print, Strip, Caught;
    OnlyActive(writing, keys, GoOn(keys, matched, depth), v, depth + 1, at);
  }

  /** A scan of the value catches an active key exactly when the rest of its path leads somewhere, and then the last value it leads to. */
  lemma {:induction false} CaughtIsLast(writing: bool, keys: seq<seq<string>>, active: set<nat>, v: Value, depth: nat, at: nat, i: nat)
    requires i in active && i < |keys| && depth < |keys[i]|
    ensures Names(writing, Print(Strip(v)), at, Caught(writing, keys, active, v, depth, at), i, LastValue(v, keys[i][depth..]))
    decreases v, 0
  {
    hide LastValue, LastValueAmong, CaughtMembers, Names, PrintMembers, StripMembers;
    var path := keys[i][depth..];
    LastValueIs(v, path);
    if v.Nest? {
      var ms, open := v.members, Open(v.braces);
      CaughtAmongAreLast(writing, keys, active, ms, v.braces, depth, 0, at + Size(writing, open), i);
      var text := PrintMembers(StripMembers(ms), v.braces);
      NamesWithin(writing, open, text, "", at, Caught(writing, keys, active, v, depth, at), i, LastValue(v, path));
      assert open + text + "" == Print(Strip(v));
    } else {
      NothingNamed(writing, Print(Strip(v)), at, i);
    }
  }

  lemma NothingNamed(writing: bool, text: string, at: nat, i: nat)
    ensures Names(writing, text, at, map[], i, None)
  {
  }

  lemma {:induction false} CaughtAmongAreLast(writing: bool, keys: seq<seq<string>>, active: set<nat>, ms: Members, braces: bool,
                                              depth: nat, index: nat, at: nat, i: nat)
    requires i in active && i < |keys| && depth < |keys[i]|
    ensures Names(writing, PrintMembers(StripMembers(ms), braces), at, CaughtMembers(writing, keys, active, ms, depth, index, at), i,
                  LastValueAmong(ms, keys[i][depth..], index))
    decreases ms, 0
  {
    hide LastValue, LastValueAmong, CaughtMember, Names, PrintMember, StripMember, CaptureStep;
    var path := keys[i][depth..];
    LastValueAmongIs(ms, path, index);
    CaughtMemberIsLast(writing, keys, active, ms.member, depth, index, at, i);
    var m := PrintMember(StripMember(ms.member));
    var first := CaughtMember(writing, keys, active, ms.member, depth, index, at);
    var node := if CaptureStep(path[0], ms.member.key, index) then LastValue(ms.member.value, path[1..]) else None;
    if ms.One? {
      NamesWithin(writing, "", m, Closing(braces), at, first, i, node);
      assert "" + m + Closing(braces) == m + Closing(braces);
    } else {
      var next := NextMember(writing, ms.member, at);
      CaughtAmongAreLast(writing, keys, active, ms.rest, braces, depth, index + 1, next, i);
      var later := CaughtMembers(writing, keys, active, ms.rest, depth, index + 1, next);
      var text := PrintMembers(StripMembers(ms.rest), braces);
      NamesWithin(writing, "", m, "," + text, at, first, i, node);
      NamesWithin(writing, m + ",", text, "", at, later, i, LastValueAmong(ms.rest, path, index + 1));
      assert "" + m + ("," + text) == m + "," + text == m + "," + text + "";
      LaterNames(writing, m + "," + text, at, first, later, i, node, LastValueAmong(ms.rest, path, index + 1));
    }
  }

  lemma LaterNames(writing: bool, text: string, at: nat, first: map<nat, Span>, later: map<nat, Span>, i: nat,
                   firstNode: Option<Value>, laterNode: Option<Value>)
    requires Names(writing, text, at, first, i, firstNode) && Names(writing, text, at, later, i, laterNode)
    ensures Names(writing, text, at, first + later, i, if laterNode.Some? then laterNode else firstNode)
  {
    hide Print, Strip;
  }

  lemma {:induction false} CaughtMemberIsLast(writing: bool, keys: seq<seq<string>>, active: set<nat>, m: Member, depth: nat,
                                              index: nat, at: nat, i: nat)
    requires i in active && i < |keys| && depth < |keys[i]|
    ensures Names(writing, PrintMember(StripMember(m)), at, CaughtMember(writing, keys, active, m, depth, index, at), i,
                  if CaptureStep(keys[i][depth], m.key, index) then LastValue(m.value, keys[i][depth + 1..]) else None)
    decreases m, 0
  {
    hide LastValue, CaughtValue, Names, Print, Strip, PrintKey, CaptureStep;
    var key, text := PrintKey(StripMember(m).key), Print(Strip(m.value));
    var matched := SteppedKeys(keys, active, m.key, depth, index);
    var caught := CaughtValue(writing, keys, matched, m.value, depth, at + Size(writing, key));
    assert PrintMember(StripMember(m)) == key + text + "" by {
      assert "" + key + text + "" == key + text + "";
    }
    if CaptureStep(keys[i][depth], m.key, index) {
      CaughtValueIsLast(writing, keys, matched, m.value, depth, at + Size(writing, key), i);
      NamesWithin(writing, key, text, "", at, caught, i, LastValue(m.value, keys[i][depth + 1..]));
    } else {
      OnlyMatched(writing, keys, matched, m.value, depth, at + Size(writing, key));
      NotCaught(writing, key + text + "", at, caught, i);
    }
  }

  lemma NotCaught(writing: bool, text: string, at: nat, caught: map<nat, Span>, i: nat)
    requires i !in caught
    ensures Names(writing, text, at, caught, i, None)
  {
  }

  lemma {:induction false} CaughtValueIsLast(writing: bool, keys: seq<seq<string>>, matched: set<nat>, v: Value, depth: nat, at: nat, i: nat)
    requires i in matched && i < |keys| && depth < |keys[i]|
    ensures Names(writing, Print(Strip(v)), at, CaughtValue(writing, keys, matched, v, depth, at), i, LastValue(v, keys[i][depth + 1..]))
    decreases v, 1
  {
    hide LastValue, Caught, Print, Strip, Names;
    var path := keys[i][depth + 1..];
    var below := Caught(writing, keys, GoOn(keys, matched, depth), v, depth + 1, at);
    var here := Everywhere(Ends(keys, matched, depth), Span(at, Size(writing, Print(Strip(v)))));
    if |keys[i]| == depth + 1 {
      LastValueIs(v, path);
      WholeNamed(writing, Print(Strip(v)), at, below + here, i, v);
    } else {
      CaughtIsLast(writing, keys, GoOn(keys, matched, depth), v, depth + 1, at, i);
      OthersNamed(writing, Print(Strip(v)), at, below, here, i, LastValue(v, path));
    }
  }

  lemma WholeNamed(writing: bool, text: string, at: nat, caught: map<nat, Span>, i: nat, v: Value)
    requires i in caught && caught[i] == Span(at, Size(writing, text)) && text == Print(Strip(v))
    ensures Names(writing, text, at, caught, i, Some(v))
  {
    hide Print, Strip;
    var from := caught[i].offset - at;
    assert from == 0;
    if writing {
      assert text[from..from + caught[i].len] == text;
    }
  }

  lemma OthersNamed(writing: bool, text: string, at: nat, caught: map<nat, Span>, more: map<nat, Span>, i: nat, node: Option<Value>)
    requires Names(writing, text, at, caught, i, node) && i !in more
    ensures Names(writing, text, at, caught + more, i, node)
  {
    hide Print, Strip;
  }

  // ---------------------------------------------------------------- a record

  /** The span cuts out of the text the value that comes last on the path. */
  ghost predicate Cuts(text: string, span: Span, v: Value, path: seq<string>) {
    exists route :: IsLast(v, path, route) && span.offset + span.len <= |text|
                    && text[span.offset..span.offset + span.len] == Print(Strip(Along(v, route, path).value))
  }

  /** A key is found exactly when its path leads somewhere in the record, and with a writer its span cuts out the last value there. */
  ghost predicate SpansFound(keys: seq<seq<string>>, writing: bool, v: Value, spans: map<nat, Span>) {
    forall i: nat ::
      && (i in spans <==> i < |keys| && |keys[i]| > 0 && exists route :: Along(v, route, keys[i]).Some?)
      && (i in spans && writing ==> Cuts(Print(Strip(v)), spans[i], v, keys[i]))
  }

  lemma SpansAreFound(keys: seq<seq<string>>, writing: bool, v: Value, all: set<nat>)
    requires forall i: int :: i in all <==> 0 <= i < |keys|
    ensures SpansFound(keys, writing, v, Caught(writing, keys, all, v, 0, 0))
  {
    hide Caught, Cuts, Along, Print, Strip;
    var spans := Caught(writing, keys, all, v, 0, 0);
    OnlyActive(writing, keys, all, v, 0, 0);
    forall i: nat
      ensures i in spans <==> i < |keys| && |keys[i]| > 0 && exists route :: Along(v, route, keys[i]).Some?
      ensures i in spans && writing ==> Cuts(Print(Strip(v)), spans[i], v, keys[i])
    {
      if i < |keys| && |keys[i]| > 0 {
        SpanIsFound(keys, writing, v, all, i);
      } else if i < |keys| {
        NoPathNoSpan(writing, keys, all, v, 0, 0, i);
      }
    }
  }

  lemma SpanIsFound(keys: seq<seq<string>>, writing: bool, v: Value, all: set<nat>, i: nat)
    requires i in all && i < |keys| && |keys[i]| > 0
    ensures i in Caught(writing, keys, all, v, 0, 0) <==> exists route :: Along(v, route, keys[i]).Some?
    ensures i in Caught(writing, keys, all, v, 0, 0) && writing ==> Cuts(Print(Strip(v)), Caught(writing, keys, all, v, 0, 0)[i], v, keys[i])
  {
    hide Caught, Along, Print, Strip, LastRoute;
    CaughtIsLast(writing, keys, all, v, 0, 0, i);
    assert keys[i][0..] == keys[i];
    LastIsLast(v, keys[i]);
    if LastRoute(v, keys[i]).Some? {
      assert Along(v, LastRoute(v, keys[i]).value, keys[i]).Some?;
    }
  }

  /** A key without segments is never found. */
  lemma {:induction false} NoPathNoSpan(writing: bool, keys: seq<seq<string>>, active: set<nat>, v: Value, depth: nat, at: nat, i: nat)
    requires i < |keys| && |keys[i]| == 0
    ensures i !in Caught(writing, keys, active, v, depth, at)
    decreases v, 0
  {
    if v.Nest? {
      NoPathNoSpanAmong(writing, keys, active, v.members, depth, 0, at + Size(writing, Open(v.braces)), i);
    }
  }

  lemma {:induction false} NoPathNoSpanAmong(writing: bool, keys: seq<seq<string>>, active: set<nat>, ms: Members, depth: nat,
                                             index: nat, at: nat, i: nat)
    requires i < |keys| && |keys[i]| == 0
    ensures i !in CaughtMembers(writing, keys, active, ms, depth, index, at)
    decreases ms, 0
  {
    hide PrintMember, StripMember, PrintKey, CaughtValue, CaptureStep;
    OnlyMatched(writing, keys, SteppedKeys(keys, active, ms.member.key, depth, index), ms.member.value, depth,
                at + Size(writing, PrintKey(StripMember(ms.member).key)));
    if ms.More? {
      NoPathNoSpanAmong(writing, keys, active, ms.rest, depth, index + 1, NextMember(writing, ms.member, at), i);
    }
  }
}
