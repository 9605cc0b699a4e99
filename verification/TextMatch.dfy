/** The resumable text matchers of src/lql_json_scan.c: a decoded string arrives in ASCII spans and single
    bytes, and every active term is followed along it. */
module TextMatch {
  import opened Wrappers
  import opened Kmp
  import opened CaseFold
  import opened Terms
  import opened DateTerms
  import NumberStream
  import Timestamp

  /** What one term has matched so far: match_pos, and its bits of match_failed and match_contains. */
  datatype Slot = Slot(pos: nat, failed: bool, found: bool)

  const FRESH := Slot(0, false, false)

  // ---------------------------------------------------------------- what a slot means

  /** Equality: the bytes so far are a prefix of the target. */
  predicate EqState(target: string, slot: Slot, fed: string) {
    && (slot.failed <==> !(fed <= target))
    && (!slot.failed ==> slot.pos == |fed|)
  }

  predicate Agree(a: string, b: string) { a <= b || b <= a }

  function Min(a: nat, b: nat): nat { if a < b then a else b }

  /** Prefix: the bytes so far agree with the target as far as both go. */
  predicate PrefixState(target: string, slot: Slot, fed: string) {
    && (slot.failed <==> !Agree(fed, target))
    && (!slot.failed ==> slot.pos == Min(|fed|, |target|))
  }

  /** Contains: the position of the Knuth-Morris-Pratt automaton, and whether the needle has ended yet. */
  ghost predicate ContainsState(needle: string, slot: Slot, fed: string) {
    && !slot.failed
    && (if needle == "" then slot.pos == 0
        else Longest(needle, fed, slot.pos) && (slot.found <==> Occurs(needle, fed)))
  }

  /** The text a slot is compared with when an object key arrives; None beyond the path. */
  function KeyTarget(term: Term, depth: nat): Option<string> {
    if depth < |term.path| then Some(term.path[depth]) else None
  }

  ghost predicate SlotState(ranges: seq<CaseRange>, term: Term, key: bool, depth: nat, slot: Slot, fed: string) {
    if key then KeyTarget(term, depth).Some? ==> EqState(KeyTarget(term, depth).value, slot, fed)
    else match term.kind
      case Prefix => PrefixState(term.value, slot, fed)
      case Contains => ContainsState(term.value, slot, fed)
      case IContains => ContainsState(term.value, slot, Fold(ranges, fed).lowered)
      case IPrefix => PrefixState(term.value, slot, Fold(ranges, fed).lowered)
      case _ => EqState(term.value, slot, fed)
  }

  /** What a term asks of a decoded string. */
  ghost predicate Hit(ranges: seq<CaseRange>, term: Term, key: bool, depth: nat, text: string) {
    if key then KeyTarget(term, depth) == Some(text)
    else match term.kind
      case Prefix => term.value <= text
      case Contains => Occurs(term.value, text)
      case IContains => Occurs(term.value, Fold(ranges, text).lowered)
      case IPrefix => term.value <= Fold(ranges, text).lowered
      case _ => text == term.value
  }

  // ---------------------------------------------------------------- one byte

  lemma EqByte(target: string, slot: Slot, fed: string, c: char)
    requires EqState(target, slot, fed)
    ensures var bad := slot.failed || slot.pos == |target| || target[slot.pos] != c;
      EqState(target, if bad then slot.(failed := true) else slot.(pos := slot.pos + 1), fed + [c])
  {
    if fed + [c] <= target {
      assert fed == target[..|fed|];
      assert target[..|fed| + 1][|fed|] == c;
    }
  }

  lemma PrefixByte(target: string, slot: Slot, fed: string, c: char)
    requires PrefixState(target, slot, fed)
    ensures !slot.failed && slot.pos == |target| ==> PrefixState(target, slot, fed + [c])
    ensures slot.failed || (slot.pos < |target| && target[slot.pos] != c) ==> PrefixState(target, slot.(failed := true), fed + [c])
    ensures !slot.failed && slot.pos < |target| && target[slot.pos] == c ==> PrefixState(target, slot.(pos := slot.pos + 1), fed + [c])
  {
    AgreeByte(fed, target, c);
  }

  lemma AgreeByte(fed: string, target: string, c: char)
    ensures |target| <= |fed| ==> (Agree(fed + [c], target) <==> Agree(fed, target))
    ensures |fed| < |target| ==> (Agree(fed + [c], target) <==> Agree(fed, target) && target[|fed|] == c)
  {
    if |target| <= |fed| {
      assert (fed + [c])[..|target|] == fed[..|target|];
    } else {
      assert target[..|fed| + 1] == target[..|fed|] + [target[|fed|]];
      if fed + [c] <= target {
        assert (fed + [c])[|fed|] == c && (fed + [c])[..|fed|] == fed;
        assert target[..|fed| + 1][|fed|] == (fed + [c])[|fed|];
        assert target[..|fed| + 1][..|fed|] == target[..|fed|];
      }
    }
  }

  /** src/lql_json_scan.c:2474-2494 and 2111-2126. */
  method ContainsByte(needle: string, failure: seq<nat>, slot: Slot, ghost fed: string, c: char) returns (next: Slot)
    requires needle != "" ==> FailureTable(needle, failure)
    requires ContainsState(needle, slot, fed)
    ensures ContainsState(needle, next, fed + [c])
    ensures !slot.failed
  {
    if needle == "" {
      return slot.(found := true);
    }
    var pos, hit := Kmp.Step(needle, failure, fed, slot.pos, c);
    OccursSnoc(needle, fed, c);
    next := Slot(pos, false, slot.found || hit);
  }

  /** src/lql_json_scan.c:2103-2109: after the target's end further bytes are accepted. */
  method IPrefixByte(target: string, slot: Slot, ghost fed: string, c: char) returns (next: Slot)
    requires PrefixState(target, slot, fed)
    ensures PrefixState(target, next, fed + [c])
    ensures slot.failed ==> next.failed
  {
    PrefixByte(target, slot, fed, c);
    next := slot;
    if slot.pos < |target| && c != target[slot.pos] {
      next := next.(failed := true);
    }
    if slot.pos < |target| {
      next := next.(pos := slot.pos + 1);
    }
  }

  // ---------------------------------------------------------------- a span

  lemma EqSpan(target: string, slot: Slot, fed: string, data: string)
    requires EqState(target, slot, fed) && !slot.failed
    ensures slot.pos <= |target|
    ensures var n := Min(|target| - slot.pos, |data|);
      var bad := target[slot.pos..slot.pos + n] != data[..n] || n != |data|;
      EqState(target, if bad then slot.(failed := true) else slot.(pos := slot.pos + n), fed + data)
  {
    assert fed == target[..|fed|];
    var n := Min(|target| - slot.pos, |data|);
    if n == |data| {
      assert target[..|fed| + n] == fed + target[|fed|..|fed| + n];
      SplitEqual(fed, target[|fed|..|fed| + n], data);
    }
  }

  lemma PrefixSpan(target: string, slot: Slot, fed: string, data: string)
    requires PrefixState(target, slot, fed) && !slot.failed
    ensures slot.pos <= |target|
    ensures var n := Min(|target| - slot.pos, |data|);
      var bad := target[slot.pos..slot.pos + n] != data[..n];
      PrefixState(target, if bad then slot.(failed := true) else slot.(pos := slot.pos + n), fed + data)
  {
    var n := Min(|target| - slot.pos, |data|);
    assert (fed + data)[..|fed|] == fed;
    if |target| <= |fed| {
      assert (fed + data)[..|target|] == fed[..|target|];
    } else {
      assert fed == target[..|fed|];
      assert target[..|fed| + n] == fed + target[|fed|..|fed| + n];
      assert (fed + data)[..|fed| + n] == fed + data[..n];
      SplitEqual(fed, target[|fed|..|fed| + n], data[..n]);
      assert Agree(fed + data, target) <==> target[..|fed| + n] == (fed + data)[..|fed| + n];
    }
  }

  lemma SplitEqual(a: string, b: string, c: string)
    ensures a + b == a + c <==> b == c
  {
    if a + b == a + c {
      assert b == (a + b)[|a|..] == (a + c)[|a|..] == c;
    }
  }

  /** src/lql_json_scan.c:2298-2322: a span against a key, an equality or a prefix target. */
  method SpanTarget(target: string, prefix: bool, slot: Slot, ghost fed: string, data: string) returns (next: Slot)
    requires !slot.failed && if prefix then PrefixState(target, slot, fed) else EqState(target, slot, fed)
    ensures if prefix then PrefixState(target, next, fed + data) else EqState(target, next, fed + data)
  {
    hide PrefixState, EqState;
    if prefix {
      PrefixSpan(target, slot, fed, data);
    } else {
      EqSpan(target, slot, fed, data);
    }
    var pos := slot.pos;
    if prefix && pos == |target| {
      assert target[pos..pos + 0] == data[..0];
      return slot;
    }
    var remaining := Min(|target| - pos, |data|);
    if target[pos..pos + remaining] != data[..remaining] {
      return slot.(failed := true);
    }
    pos := pos + remaining;
    if remaining != |data| && !prefix {
      return slot.(failed := true);
    }
    next := slot.(pos := pos);
  }

  /** src/lql_json_scan.c:2202-2226. */
  method ContainsSpan(needle: string, failure: seq<nat>, slot: Slot, ghost fed: string, data: string) returns (next: Slot)
    requires needle != "" ==> FailureTable(needle, failure)
    requires ContainsState(needle, slot, fed)
    ensures ContainsState(needle, next, fed + data)
  {
    hide ContainsState, FailureTable;
    next := slot;
    assert fed + data[..0] == fed;
    for offset := 0 to |data|
      invariant ContainsState(needle, next, fed + data[..offset])
    {
      next := ContainsByte(needle, failure, next, fed + data[..offset], data[offset]);
      assert fed + data[..offset] + [data[offset]] == fed + data[..offset + 1];
    }
    assert data[..|data|] == data;
  }

  predicate IsAscii(data: string) { forall i :: 0 <= i < |data| ==> data[i] as int < 0x80 }

  function LowerAsciiText(data: string): string { seq(|data|, i requires 0 <= i < |data| => LowerAscii(data[i])) }

  /** A span of ASCII on a boundary goes into the fold letter by letter. */
  lemma {:induction false} FoldAsciiSpan(ranges: seq<CaseRange>, fed: string, data: string, n: nat)
    requires WellFormedTable(ranges) && Fold(ranges, fed).pending == "" && IsAscii(data) && n <= |data|
    ensures Fold(ranges, fed + data[..n]) == Folding(Fold(ranges, fed).lowered + LowerAsciiText(data)[..n], "")
  {
    hide Fold, WellFormedTable, LowerAscii;
    var lower := LowerAsciiText(data);
    if n == 0 {
      assert fed + data[..0] == fed;
      assert Fold(ranges, fed).lowered + lower[..0] == Fold(ranges, fed).lowered;
    } else {
      FoldAsciiSpan(ranges, fed, data, n - 1);
      FoldAscii(ranges, fed + data[..n - 1], data[n - 1]);
      assert fed + data[..n - 1] + [data[n - 1]] == fed + data[..n];
      assert lower[..n] == lower[..n - 1] + [LowerAscii(data[n - 1])];
    }
  }

  /** src/lql_json_scan.c:2149-2182: an ASCII span against a term that ignores case. */
  method ICaseSpan(ranges: seq<CaseRange>, term: Term, slot: Slot, ghost fed: string, data: string) returns (next: Slot)
    requires WellFormedTerm(term) && FoldsCase(term.kind)
    requires SlotState(ranges, term, false, 0, slot, fed)
    requires WellFormedTable(ranges) && Fold(ranges, fed).pending == "" && IsAscii(data)
    ensures SlotState(ranges, term, false, 0, next, fed + data)
  {
    hide Fold, WellFormedTable, ContainsState, PrefixState, IsAscii, FailureTable, LowerAscii;
    ghost var lowered := Fold(ranges, fed).lowered;
    next := slot;
    assert lowered + LowerAsciiText(data)[..0] == lowered;
    for offset := 0 to |data|
      invariant term.kind == IPrefix ==> PrefixState(term.value, next, lowered + LowerAsciiText(data)[..offset])
      invariant term.kind == IContains ==> ContainsState(term.value, next, lowered + LowerAsciiText(data)[..offset])
    {
      var value := LowerAscii(data[offset]);
      ghost var sofar := lowered + LowerAsciiText(data)[..offset];
      assert sofar + [value] == lowered + LowerAsciiText(data)[..offset + 1];
      if term.kind == IPrefix {
        next := IPrefixByte(term.value, next, sofar, value);
      } else {
        next := ContainsByte(term.value, term.failure, next, sofar, value);
      }
    }
    FoldAsciiSpan(ranges, fed, data, |data|);
    assert data[..|data|] == data;
  }

  /** src/lql_json_scan.c:2086-2130: the bytes of one lowercased sequence. */
  method ICaseBytes(term: Term, slot: Slot, ghost lowered: string, data: string) returns (next: Slot)
    requires WellFormedTerm(term) && FoldsCase(term.kind)
    requires term.kind == IPrefix ==> PrefixState(term.value, slot, lowered)
    requires term.kind == IContains ==> ContainsState(term.value, slot, lowered)
    ensures term.kind == IPrefix ==> PrefixState(term.value, next, lowered + data)
    ensures term.kind == IContains ==> ContainsState(term.value, next, lowered + data)
    ensures slot.failed ==> next.failed
  {
    hide ContainsState, PrefixState, FailureTable;
    next := slot;
    assert lowered + data[..0] == lowered;
    for offset := 0 to |data|
      invariant slot.failed ==> next.failed
      invariant term.kind == IPrefix ==> PrefixState(term.value, next, lowered + data[..offset])
      invariant term.kind == IContains ==> ContainsState(term.value, next, lowered + data[..offset])
    {
      assert lowered + data[..offset] + [data[offset]] == lowered + data[..offset + 1];
      if term.kind == IPrefix {
        next := IPrefixByte(term.value, next, lowered + data[..offset], data[offset]);
      } else {
        next := ContainsByte(term.value, term.failure, next, lowered + data[..offset], data[offset]);
      }
    }
    assert data[..|data|] == data;
  }

  // ---------------------------------------------------------------- one slot, one byte

  /** src/lql_json_scan.c:2445-2505 for one term that does not ignore case. */
  method SlotByte(ranges: seq<CaseRange>, term: Term, key: bool, depth: nat, slot: Slot, ghost fed: string, c: char)
    returns (next: Slot)
    requires WellFormedTerm(term) && (key || !FoldsCase(term.kind))
    requires SlotState(ranges, term, key, depth, slot, fed)
    ensures SlotState(ranges, term, key, depth, next, fed + [c])
  {
    hide Fold, FailureTable, ContainsState, EqState, PrefixState;
    if key && KeyTarget(term, depth).None? {
      return slot.(failed := true);
    }
    var target := if key then KeyTarget(term, depth).value else term.value;
    if !key && term.kind == Contains {
      next := ContainsByte(target, term.failure, slot, fed, c);
    } else if !key && term.kind == Prefix {
      PrefixByte(target, slot, fed, c);
      FailedOrInside(target, slot, fed);
      if slot.failed || slot.pos == |target| {
        FailedStays(slot);
        next := slot;
      } else {
        next := if target[slot.pos] != c then slot.(failed := true) else slot.(pos := slot.pos + 1);
      }
    } else {
      EqByte(target, slot, fed, c);
      FailedStays(slot);
      EqInside(target, slot, fed);
      next := if slot.failed || slot.pos == |target| || target[slot.pos] != c then slot.(failed := true)
              else slot.(pos := slot.pos + 1);
    }
  }

  lemma FailedStays(slot: Slot)
    ensures slot.failed ==> slot.(failed := true) == slot
  {
  }

  lemma FailedOrInside(target: string, slot: Slot, fed: string)
    requires PrefixState(target, slot, fed)
    ensures slot.failed || slot.pos <= |target|
  {
  }

  lemma EqInside(target: string, slot: Slot, fed: string)
    requires EqState(target, slot, fed)
    ensures slot.failed || slot.pos <= |target|
  {
  }

  lemma DecodesWhole(bytes: string)
    requires |bytes| > 0
    ensures Utf8.IsUnit(bytes) <==> Utf8.UnitAt(bytes, 0).Some? && |Utf8.UnitAt(bytes, 0).value| == |bytes|
    ensures Utf8.IsUnit(bytes) ==> Utf8.UnitAt(bytes, 0).value == bytes
  {
    assert bytes[0..|bytes|] == bytes;
    if Utf8.IsUnit(bytes) {
      Utf8.UnitWidth(bytes);
    }
  }

  /** src/lql_json_scan.c:2245-2255: the lowercase of the collected bytes, nothing if they do not decode. */
  method LowerCollected(ranges: seq<CaseRange>, bytes: string) returns (lower: string)
    requires WellFormedTable(ranges) && |bytes| > 0
    ensures lower == LowerOrNothing(ranges, bytes)
  {
    hide Utf8.IsUnit, Utf8.Encode, Lower, Utf8.UnitAt, WellFormedTable;
    DecodesWhole(bytes);
    var ok, rune, next := Utf8.Decode(bytes, 0);
    if !ok || next != |bytes| {
      return "";
    }
    Utf8.EncodeOfDecode(bytes);
    var mapped := rune;
    if rune < 0x80 {
      AsciiStays(ranges, rune);
    }
    if IsUpperAscii(rune) {
      mapped := rune + 32;
    } else if rune >= 0x80 {
      TableIsSorted(ranges);
      mapped := SimpleLower(ranges, rune);
    }
    lower := if Utf8.IsScalar(mapped) then Utf8.Encode(mapped) else "";
  }

  lemma TableIsSorted(ranges: seq<CaseRange>)
    requires WellFormedTable(ranges)
    ensures Sorted(ranges)
  {
  }

  // ---------------------------------------------------------------- a failed slot stays failed

  lemma {:induction false} FoldGrows(ranges: seq<CaseRange>, fed: string, data: string)
    ensures Fold(ranges, fed).lowered <= Fold(ranges, fed + data).lowered
    decreases |data|
  {
    hide LowerOrNothing;
    if |data| == 0 {
      assert fed + data == fed;
    } else {
      var front := data[..|data| - 1];
      FoldGrows(ranges, fed, front);
      assert fed + data == fed + front + [data[|data| - 1]];
      FoldSnoc(ranges, fed + front, data[|data| - 1]);
    }
  }

  lemma DisagreesForGood(a: string, b: string, target: string)
    requires a <= b
    ensures !(a <= target) ==> !(b <= target)
    ensures !Agree(a, target) ==> !Agree(b, target)
  {
    if target <= b && |a| <= |target| {
      assert target == b[..|target|] && target[..|a|] == b[..|a|] == a;
    }
    if target <= b && |target| <= |a| {
      assert a[..|target|] == b[..|target|] == target;
    }
  }

  lemma FailedForGood(ranges: seq<CaseRange>, term: Term, key: bool, depth: nat, slot: Slot, next: Slot, fed: string, data: string)
    requires SlotState(ranges, term, key, depth, slot, fed) && slot.failed && next.failed
    ensures SlotState(ranges, term, key, depth, next, fed + data)
  {
    hide Fold;
    FoldGrows(ranges, fed, data);
    var target := if key && KeyTarget(term, depth).Some? then KeyTarget(term, depth).value else term.value;
    DisagreesForGood(fed, fed + data, target);
    DisagreesForGood(Fold(ranges, fed).lowered, Fold(ranges, fed + data).lowered, target);
  }

  lemma FreshSlot(ranges: seq<CaseRange>, term: Term, key: bool, depth: nat)
    ensures SlotState(ranges, term, key, depth, FRESH, "")
  {
    if term.value != "" {
      Kmp.NothingYet(term.value);
    }
  }

  /** src/lql_json_scan.c:2544-2576 for one term. */
  predicate SlotHits(term: Term, key: bool, depth: nat, slot: Slot) {
    !slot.failed &&
    if key then KeyTarget(term, depth).Some? && slot.pos == |KeyTarget(term, depth).value|
    else if term.kind == Contains || term.kind == IContains then slot.found || slot.pos == |term.value|
    else slot.pos == |term.value| || (slot.pos > |term.value| && (term.kind == Prefix || term.kind == IPrefix))
  }

  lemma SlotHitsIsHit(ranges: seq<CaseRange>, term: Term, key: bool, depth: nat, slot: Slot, fed: string)
    requires SlotState(ranges, term, key, depth, slot, fed)
    ensures SlotHits(term, key, depth, slot) <==> Hit(ranges, term, key, depth, fed)
  {
    hide Fold, FailureTable, Longest;
    var text := if !key && FoldsCase(term.kind) then Fold(ranges, fed).lowered else fed;
    var target := if key && KeyTarget(term, depth).Some? then KeyTarget(term, depth).value else term.value;
    assert text <= target && |text| == |target| ==> text == target;
    if !key && (term.kind == Contains || term.kind == IContains) {
      ContainsHit(term.value, slot, text);
    }
  }

  lemma ContainsHit(needle: string, slot: Slot, text: string)
    requires ContainsState(needle, slot, text)
    ensures slot.found || slot.pos == |needle| <==> Occurs(needle, text)
  {
    assert text[0..0] == "";
  }

  method CaseSlot(ranges: seq<CaseRange>, term: Term, ghost depth: nat, slot: Slot, ghost fed: string, lower: string,
                  ghost next: string, ghost alive: bool) returns (r: Slot)
    requires WellFormedTerm(term) && FoldsCase(term.kind) && fed <= next
    requires SlotState(ranges, term, false, depth, slot, fed)
    requires if alive then Fold(ranges, next).lowered == Fold(ranges, fed).lowered + lower else slot.failed
    ensures SlotState(ranges, term, false, depth, r, next)
    ensures slot.failed ==> r.failed
  {
    hide Fold, FailureTable, ContainsState, PrefixState;
    r := ICaseBytes(term, slot, Fold(ranges, fed).lowered, lower);
    if slot.failed {
      var data := next[|fed|..];
      assert next == fed + data;
      FailedForGood(ranges, term, false, depth, slot, r, fed, data);
    }
  }

  /** src/lql_json_scan.c:2325-2398 for one term that has not failed. */
  method SlotSpan(ranges: seq<CaseRange>, term: Term, key: bool, depth: nat, slot: Slot, ghost fed: string, data: string)
    returns (next: Slot)
    requires WellFormedTerm(term) && WellFormedTable(ranges) && IsAscii(data)
    requires !slot.failed && SlotState(ranges, term, key, depth, slot, fed)
    requires !key && FoldsCase(term.kind) ==> Fold(ranges, fed).pending == ""
    ensures SlotState(ranges, term, key, depth, next, fed + data)
  {
    hide Fold, FailureTable, WellFormedTable, ContainsState, EqState, PrefixState;
    if !key && term.kind == Contains {
      next := ContainsSpan(term.value, term.failure, slot, fed, data);
    } else if !key && FoldsCase(term.kind) {
      next := ICaseSpan(ranges, term, slot, fed, data);
    } else if key && KeyTarget(term, depth).None? {
      next := slot.(failed := true);
    } else {
      var target := if key then KeyTarget(term, depth).value else term.value;
      next := SpanTarget(target, !key && term.kind == Prefix, slot, fed, data);
    }
  }

  lemma FoldSpan(ranges: seq<CaseRange>, fed: string, data: string)
    requires WellFormedTable(ranges) && Fold(ranges, fed).pending == "" && IsAscii(data)
    ensures Fold(ranges, fed + data).pending == ""
  {
    hide Fold;
    FoldAsciiSpan(ranges, fed, data, |data|);
    assert data[..|data|] == data;
  }

  // ---------------------------------------------------------------- capture keys

  /** What one capture key has matched of the member key being read: capture_pos, capture_segment and its bit of capture_failed. */
  datatype Progress = Progress(pos: nat, segment: nat, failed: bool)

  /** A key past its last segment fails with the first byte; otherwise the bytes so far are a prefix of the segment. */
  predicate Agrees(key: seq<string>, progress: Progress, fed: string) {
    if progress.segment >= |key| then progress.failed <==> |fed| > 0
    else && (progress.failed <==> !(fed <= key[progress.segment]))
         && (!progress.failed ==> progress.pos == |fed|)
  }

  /** src/lql_json_scan.c:2514-2527 for one key. */
  function Advanced(key: seq<string>, p: Progress, c: char): Progress {
    if p.failed then p
    else if p.segment >= |key| || p.pos >= |key[p.segment]| || key[p.segment][p.pos] != c then p.(failed := true)
    else p.(pos := p.pos + 1)
  }

  lemma AgreesByte(key: seq<string>, p: Progress, fed: string, c: char)
    requires Agrees(key, p, fed)
    ensures Agrees(key, Advanced(key, p, c), fed + [c])
  {
    if p.segment < |key| {
      var target := key[p.segment];
      if fed + [c] <= target {
        assert fed == target[..|fed|];
        assert target[..|fed| + 1][|fed|] == c;
      }
    }
  }

  /** A key that failed goes on failing. */
  lemma AgreesNoMore(key: seq<string>, p: Progress, fed: string, data: string)
    requires Agrees(key, p, fed) && p.failed
    ensures Agrees(key, p, fed + data)
  {
    assert (fed + data)[..|fed|] == fed;
  }

  /** The keys of the source whose segment at the depth is the text. */
  ghost function KeysAt(keys: seq<seq<string>>, source: set<nat>, depth: nat, text: string): set<nat> {
    set i | i in source && i < |keys| && depth < |keys[i]| && keys[i][depth] == text
  }

  // ---------------------------------------------------------------- dates

  /** temporal_match and temporal_range_failed: the text so far, as long as it fits. */
  predicate DateState(text: string, failed: bool, fed: string) {
    (failed <==> |fed| >= NumberStream.MATCH_BYTES) && (!failed ==> text == fed)
  }

  // ---------------------------------------------------------------- the matcher

  /** The matching state of the scanner: match_active, match_icontains, match_pos, match_failed, match_contains and match_case_*
      for terms that look at text, temporal_range_active, temporal_range_failed and temporal_match for dates, and capture_active,
      capture_failed, capture_pos and capture_segment for capture keys. */
  class TextMatcher {
    const ranges: seq<CaseRange>
    const terms: seq<Term>
    const keys: seq<seq<string>>
    var active: set<nat>
    var folding: set<nat>
    var key: bool
    var depth: nat
    var slots: seq<Slot>
    var caseBytes: string
    var caseNeed: nat
    var dated: set<nat>
    var dateText: string
    var datesFailed: bool
    var captured: set<nat>
    var progress: seq<Progress>
    /** Everything fed since Start. */
    ghost var fed: string

    ghost predicate WellFormed()
      reads this
    {
      && WellFormedTable(ranges)
      && (forall i :: 0 <= i < |terms| ==> WellFormedTerm(terms[i]))
      && |slots| == |terms|
      && (forall i :: i in active ==> i < |terms|)
      && (forall i :: i in folding <==> i in active && !key && FoldsCase(terms[i].kind))
      && caseNeed == (if caseBytes == "" then 0 else Need(caseBytes[0]))
      && (forall i :: i in dated ==> i < |terms|)
      && |progress| == |keys|
    }

    /** The capture keys have matched the text at this segment. */
    ghost predicate Agreeing(segment: nat, text: string)
      requires |progress| == |keys|
      reads this
    {
      forall i: nat :: i in captured && i < |keys| ==> progress[i].segment == segment && Agrees(keys[i], progress[i], text)
    }

    /** Nothing is left to match. */
    predicate Dead()
      reads this
    {
      forall i :: i in active && i < |slots| ==> slots[i].failed
    }

    predicate KeysFailed()
      reads this
    {
      forall i :: i in captured && i < |progress| ==> progress[i].failed
    }

    /** Nothing at all listens: text is not passed on. */
    predicate Deaf()
      reads this
    {
      Dead() && KeysFailed() && (dated != {} ==> datesFailed)
    }

    ghost predicate Valid()
      reads this
    {
      && Following(fed)
      && (dated != {} ==> DateState(dateText, datesFailed, fed))
      && (key ==> Agreeing(depth, fed))
    }

    /** Every active term has followed the text. */
    ghost predicate Following(text: string)
      reads this
    {
      && WellFormed()
      && (forall i :: i in active ==> SlotState(ranges, terms[i], key, depth, slots[i], text))
      && (folding != {} && !Dead() ==> caseBytes == Fold(ranges, text).pending)
    }

    constructor (ranges: seq<CaseRange>, terms: seq<Term>, keys: seq<seq<string>>)
      requires WellFormedTable(ranges) && forall i :: 0 <= i < |terms| ==> WellFormedTerm(terms[i])
      ensures Valid() && this.ranges == ranges && this.terms == terms && this.keys == keys
      ensures active == {} && dated == {} && !key && fed == ""
    {
      this.ranges, this.terms, this.keys := ranges, terms, keys;
      dated, dateText, datesFailed := {}, "", false;
      captured, progress := {}, seq(|keys|, _ => Progress(0, 0, false));
      active, folding, key, depth := {}, {}, false, 0;
      slots := seq(|terms|, _ => FRESH);
      caseBytes, caseNeed := "", 0;
      fed := "";
    }

    /** src/lql_json_scan.c:261-281. */
    method Start(active: set<nat>, key: bool, depth: nat)
      requires WellFormed() && dated == {} && (key ==> Agreeing(depth, "")) && forall i :: i in active ==> i < |terms|
      modifies this`active, this`key, this`depth, this`folding, this`slots, this`caseBytes, this`caseNeed, this`fed
      ensures Valid() && fed == "" && this.active == active && this.key == key && this.depth == depth
    {
      hide SlotState, WellFormedTerm, WellFormedTable, Following, Agrees;
      this.active, this.key, this.depth := active, key, depth;
      caseBytes, caseNeed, fed := "", 0, "";
      folding := set i | i in active && !key && FoldsCase(terms[i].kind);
      ClearSlots();
      FreshFollows();
    }

    lemma FreshFollows()
      requires WellFormed() && caseBytes == "" && forall i :: i in active ==> slots[i] == FRESH
      ensures Following("")
    {
      hide SlotState, WellFormedTerm, WellFormedTable;
      forall i | i in active ensures SlotState(ranges, terms[i], key, depth, slots[i], "") {
        FreshSlot(ranges, terms[i], key, depth);
      }
    }

    method ClearSlots()
      requires WellFormed()
      modifies this`slots
      ensures WellFormed() && forall i :: i in active ==> slots[i] == FRESH
    {
      hide WellFormedTerm, WellFormedTable;
      for i := 0 to |terms|
        invariant WellFormed() && forall j :: 0 <= j < i && j in active ==> slots[j] == FRESH
      {
        if i in active {
          slots := slots[i := FRESH];
        }
      }
    }

    /** src/lql_json_scan.c:2431-2507: every term that does not ignore case. */
    method PlainByte(c: char)
      requires Following(fed)
      modifies this`slots
      ensures WellFormed()
      ensures forall i :: i in active && old(slots)[i].failed ==> slots[i].failed
      ensures forall i :: i in folding ==> slots[i] == old(slots)[i]
      ensures forall i :: i in active && i !in folding ==> SlotState(ranges, terms[i], key, depth, slots[i], fed + [c])
    {
      hide SlotState, WellFormedTerm, WellFormedTable;
      ghost var was := slots;
      for i := 0 to |terms|
        invariant WellFormed()
        invariant forall j :: i <= j < |slots| ==> slots[j] == was[j]
        invariant forall j :: j in active && was[j].failed ==> slots[j].failed
        invariant forall j :: j in folding ==> slots[j] == was[j]
        invariant forall j :: 0 <= j < i && j in active && j !in folding
                              ==> SlotState(ranges, terms[j], key, depth, slots[j], fed + [c])
      {
        if i in active && i !in folding {
          if slots[i].failed {
            FailedForGood(ranges, terms[i], key, depth, slots[i], slots[i], fed, [c]);
          } else {
            var next := SlotByte(ranges, terms[i], key, depth, slots[i], fed, c);
            slots := slots[i := next];
          }
        }
      }
    }

    /** src/lql_json_scan.c:2230-2258: collect a sequence, lowercase it, and follow its bytes. */
    method CaseByte(c: char, ghost alive: bool)
      requires WellFormed()
      requires forall i :: i in folding ==> SlotState(ranges, terms[i], key, depth, slots[i], fed)
      requires if alive then caseBytes == Fold(ranges, fed).pending else forall i :: i in folding ==> slots[i].failed
      modifies this`slots, this`caseBytes, this`caseNeed
      ensures WellFormed()
      ensures forall i :: i in active && old(slots)[i].failed ==> slots[i].failed
      ensures forall i :: i in active && i !in folding ==> slots[i] == old(slots)[i]
      ensures forall i :: i in folding ==> SlotState(ranges, terms[i], key, depth, slots[i], fed + [c])
      ensures alive ==> caseBytes == Fold(ranges, fed + [c]).pending
    {
      hide Fold, SlotState, WellFormedTerm, WellFormedTable, LowerOrNothing;
      FoldSnoc(ranges, fed, c);
      PendingIsShort(ranges, fed);
      if caseNeed == 0 {
        caseNeed := Need(c);
      }
      caseBytes := caseBytes + [c];
      var lower := "";
      if |caseBytes| == caseNeed {
        lower := LowerCollected(ranges, caseBytes);
        caseBytes, caseNeed := "", 0;
      }
      CaseBytes(lower, fed + [c], alive);
    }

    /** src/lql_json_scan.c:2086-2130, over all terms that ignore case. */
    method CaseBytes(lower: string, ghost next: string, ghost alive: bool)
      requires WellFormed()
      requires fed <= next
      requires forall i :: i in folding ==> SlotState(ranges, terms[i], key, depth, slots[i], fed)
      requires if alive then Fold(ranges, next).lowered == Fold(ranges, fed).lowered + lower
               else forall i :: i in folding ==> slots[i].failed
      modifies this`slots
      ensures WellFormed()
      ensures forall i :: i in active && old(slots)[i].failed ==> slots[i].failed
      ensures forall i :: i in active && i !in folding ==> slots[i] == old(slots)[i]
      ensures forall i :: i in folding ==> SlotState(ranges, terms[i], key, depth, slots[i], next)
    {
      hide Fold, SlotState, WellFormedTerm, WellFormedTable;
      ghost var was := slots;
      for i := 0 to |terms|
        invariant WellFormed()
        invariant forall j :: i <= j < |slots| ==> slots[j] == was[j]
        invariant forall j :: j in active && was[j].failed ==> slots[j].failed
        invariant forall j :: j in active && j !in folding ==> slots[j] == was[j]
        invariant forall j :: 0 <= j < i && j in folding ==> SlotState(ranges, terms[j], key, depth, slots[j], next)
      {
        if i in folding {
          var slot := CaseSlot(ranges, terms[i], depth, slots[i], fed, lower, next, alive);
          slots := slots[i := slot];
        }
      }
    }

    /** src/lql_json_scan.c:1732-1743. */
    method StartKeys(source: set<nat>, segment: nat)
      requires WellFormed()
      modifies this`captured, this`progress
      ensures WellFormed() && captured == source && Agreeing(segment, "")
    {
      hide WellFormedTerm, WellFormedTable;
      captured := source;
      for i := 0 to |keys|
        invariant WellFormed() && captured == source
        invariant forall j: nat :: j < i && j in captured ==> progress[j] == Progress(0, segment, false)
      {
        if i in captured {
          progress := progress[i := Progress(0, segment, false)];
        }
      }
    }

    /** src/lql_json_scan.c:2508-2528. */
    method KeysByte(c: char, ghost text: string)
      requires WellFormed() && (key ==> Agreeing(depth, text))
      modifies this`progress
      ensures WellFormed() && (key ==> Agreeing(depth, text + [c]))
    {
      hide WellFormedTerm, WellFormedTable, Agrees;
      ghost var was := progress;
      for i := 0 to |keys|
        invariant WellFormed() && forall j: nat :: i <= j < |keys| ==> progress[j] == was[j]
        invariant key ==> forall j: nat :: j < i && j in captured ==> progress[j].segment == depth && Agrees(keys[j], progress[j], text + [c])
      {
        if i in captured {
          if key {
            AgreesByte(keys[i], progress[i], text, c);
          }
          progress := progress[i := Advanced(keys[i], progress[i], c)];
        }
      }
    }

    /** src/lql_json_scan.c:2399-2417: byte by byte, while a key is left. */
    method KeysSpan(data: string)
      requires WellFormed() && (key ==> Agreeing(depth, fed))
      modifies this`progress
      ensures WellFormed() && (key ==> Agreeing(depth, fed + data))
    {
      hide WellFormedTerm, WellFormedTable, Agrees;
      assert fed + data[..0] == fed;
      var i := 0;
      while i < |data| && !KeysFailed()
        invariant i <= |data| && WellFormed() && (key ==> Agreeing(depth, fed + data[..i]))
      {
        KeysByte(data[i], fed + data[..i]);
        assert fed + data[..i] + [data[i]] == fed + data[..i + 1];
        i := i + 1;
      }
      assert data[..|data|] == data;
      if key && i < |data| {
        KeysDone(fed + data[..i], data[i..]);
        assert fed + data[..i] + data[i..] == fed + data;
      }
    }

    lemma KeysDone(text: string, data: string)
      requires WellFormed() && KeysFailed() && Agreeing(depth, text)
      ensures Agreeing(depth, text + data)
    {
      hide WellFormedTerm, WellFormedTable, Agrees;
      forall i: nat | i in captured && i < |keys| ensures Agrees(keys[i], progress[i], text + data) {
        AgreesNoMore(keys[i], progress[i], text, data);
      }
    }

    /** src/lql_json_scan.c:1745-1760: the capture keys whose segment is the text that was fed. */
    method CompleteKeys() returns (matched: set<nat>)
      requires Valid() && key
      ensures matched == KeysAt(keys, captured, depth, fed)
    {
      hide SlotState, WellFormedTerm, WellFormedTable;
      matched := {};
      for i := 0 to |keys|
        invariant matched == set j | j in KeysAt(keys, captured, depth, fed) && j < i
      {
        var p := progress[i];
        if i in captured && !p.failed && p.segment < |keys[i]| && p.pos == |keys[i][p.segment]| {
          matched := matched + {i};
        }
        assert i in captured && depth < |keys[i]| && !p.failed && p.pos == |keys[i][depth]| ==> fed == keys[i][depth];
      }
    }

    /** src/lql_json_scan.c:1423-1428. */
    method StartDates(dated: set<nat>)
      requires Valid() && (dated == {} || fed == "") && forall i :: i in dated ==> i < |terms|
      modifies this`dated, this`dateText, this`datesFailed
      ensures Valid() && this.dated == dated
    {
      hide SlotState, WellFormedTerm, WellFormedTable;
      this.dated, dateText, datesFailed := dated, "", false;
    }

    /** src/lql_json_scan.c:1430-1440. */
    method DateByte(c: char)
      requires WellFormed() && (dated != {} ==> DateState(dateText, datesFailed, fed))
      modifies this`dateText, this`datesFailed
      ensures WellFormed() && (dated != {} ==> DateState(dateText, datesFailed, fed + [c]))
    {
      hide WellFormedTerm, WellFormedTable;
      if dated == {} {
        return;
      }
      if |dateText| + 1 >= NumberStream.MATCH_BYTES {
        datesFailed := true;
      } else {
        dateText := dateText + [c];
      }
    }

    /** src/lql_json_scan.c:1442-1461. */
    method DateSpan(data: string)
      requires WellFormed() && (dated != {} ==> DateState(dateText, datesFailed, fed))
      modifies this`dateText, this`datesFailed
      ensures WellFormed() && (dated != {} ==> DateState(dateText, datesFailed, fed + data))
    {
      hide WellFormedTerm, WellFormedTable;
      if dated == {} || |data| == 0 {
        assert data == "" ==> fed + data == fed;
        return;
      }
      if datesFailed {
        return;
      }
      var remaining := NumberStream.MATCH_BYTES - |dateText|;
      if |data| >= remaining {
        datesFailed := true;
      } else {
        dateText := dateText + data;
      }
    }

    /** src/lql_json_scan.c:1682-1729: the date terms that the text that was fed satisfies. */
    method CompleteDates() returns (found: set<nat>)
      requires Valid()
      ensures found == set i | i in dated && DateWithin(fed, terms[i].dates)
    {
      hide SlotState, WellFormedTerm, WellFormedTable, Timestamp.Literal, Timestamp.Meaning, Within;
      found := {};
      if dated == {} || |dateText| >= NumberStream.MATCH_BYTES || datesFailed {
        return;
      }
      var ok, value := Timestamp.Parse(UntilNul(dateText), ANY);
      if !ok {
        return;
      }
      for i := 0 to |terms|
        invariant found == set j | j in dated && j < i && Within(value, terms[j].dates)
      {
        if i in dated {
          var hit := InBounds(value, terms[i].dates);
          if hit {
            found := found + {i};
          }
        }
      }
    }

    /** src/lql_json_scan.c:2431-2507 and 2530-2531: every term. */
    method SlotsByte(c: char)
      requires Following(fed)
      modifies this`slots, this`caseBytes, this`caseNeed
      ensures Following(fed + [c])
    {
      hide Fold, SlotState, WellFormedTerm, WellFormedTable;
      ghost var alive := !Dead();
      ghost var was := slots;
      PlainByte(c);
      if folding != {} {
        CaseByte(c, alive);
      }
    }

    /** src/lql_json_scan.c:2420-2532. */
    method Byte(c: char)
      requires Valid()
      modifies this`slots, this`caseBytes, this`caseNeed, this`dateText, this`datesFailed, this`progress, this`fed
      ensures Valid() && fed == old(fed) + [c]
    {
      hide Fold, SlotState, WellFormedTerm, WellFormedTable, DateState, Agrees;
      DateByte(c);
      if active != {} {
        SlotsByte(c);
      }
      if captured != {} {
        KeysByte(c, fed);
      }
      fed := fed + [c];
    }

    /** src/lql_json_scan.c:2325-2398: a span of plain ASCII between two characters. */
    method Span(data: string)
      requires Valid() && IsAscii(data)
      requires folding != {} && !Dead() ==> Fold(ranges, fed).pending == ""
      modifies this`slots, this`dateText, this`datesFailed, this`progress, this`fed
      ensures Valid() && fed == old(fed) + data
    {
      hide Fold, SlotState, WellFormedTerm, WellFormedTable, IsAscii, DateState, Agrees;
      DateSpan(data);
      if active != {} {
        SlotsSpan(data);
      }
      if captured != {} {
        KeysSpan(data);
      }
      fed := fed + data;
    }

    method SlotsSpan(data: string)
      requires Following(fed) && IsAscii(data)
      requires folding != {} && !Dead() ==> Fold(ranges, fed).pending == ""
      modifies this`slots
      ensures Following(fed + data)
    {
      hide Fold, SlotState, WellFormedTerm, WellFormedTable, IsAscii;
      ghost var alive := !Dead();
      EverySpan(data);
      if folding != {} && alive {
        FoldSpan(ranges, fed, data);
      }
    }

    method EverySpan(data: string)
      requires Following(fed) && IsAscii(data)
      requires folding != {} && !Dead() ==> Fold(ranges, fed).pending == ""
      modifies this`slots
      ensures WellFormed()
      ensures forall i :: i in active && old(slots)[i].failed ==> slots[i].failed
      ensures forall i :: i in active ==> SlotState(ranges, terms[i], key, depth, slots[i], fed + data)
    {
      hide Fold, SlotState, WellFormedTerm, WellFormedTable, IsAscii;
      ghost var was := slots;
      for i := 0 to |terms|
        invariant WellFormed()
        invariant forall j :: i <= j < |slots| ==> slots[j] == was[j]
        invariant forall j :: j in active && was[j].failed ==> slots[j].failed
        invariant forall j :: 0 <= j < i && j in active ==> SlotState(ranges, terms[j], key, depth, slots[j], fed + data)
      {
        if i in active {
          if slots[i].failed {
            FailedForGood(ranges, terms[i], key, depth, slots[i], slots[i], fed, data);
          } else {
            var next := SlotSpan(ranges, terms[i], key, depth, slots[i], fed, data);
            slots := slots[i := next];
          }
        }
      }
    }

    /** When nothing is left to match, the callers do not pass text on (src/lql_json_scan.c:3276-3280, 3568-3572). */
    ghost method Ignore(data: string)
      requires Valid() && Deaf()
      modifies this`fed
      ensures Valid() && fed == old(fed) + data
    {
      hide Fold, SlotState, WellFormedTerm, WellFormedTable, Agrees;
      if key {
        KeysDone(fed, data);
      }
      forall i | i in active ensures SlotState(ranges, terms[i], key, depth, slots[i], fed + data) {
        FailedForGood(ranges, terms[i], key, depth, slots[i], slots[i], fed, data);
      }
      fed := fed + data;
    }

    /** What went by while nothing was active does not matter. */
    ghost method Forget()
      requires Valid() && active == {} && dated == {} && !key
      modifies this`fed
      ensures Valid() && fed == ""
    {
      fed := "";
    }

    /** src/lql_json_scan.c:2534-2579: the terms that what was fed satisfies, however it was cut into spans and bytes. */
    method Complete() returns (matches: set<nat>)
      requires Valid()
      ensures matches == set i | i in active && Hit(ranges, terms[i], key, depth, fed)
    {
      hide SlotState, WellFormedTerm, WellFormedTable, Hit, SlotHits;
      matches := {};
      for i := 0 to |terms|
        invariant matches == set j | j in active && j < i && Hit(ranges, terms[j], key, depth, fed)
      {
        if i in active {
          SlotHitsIsHit(ranges, terms[i], key, depth, slots[i], fed);
          if SlotHits(terms[i], key, depth, slots[i]) {
            matches := matches + {i};
          }
        }
      }
    }
  }

  /** What a folding term asks of a text that lowercases as a whole. */
  lemma FoldingHits(ranges: seq<CaseRange>, term: Term, depth: nat, text: string)
    requires LowerText(ranges, text).Some?
    ensures var lower := LowerText(ranges, text).value;
      && (term.kind == IContains ==> (Hit(ranges, term, false, depth, text) <==> Occurs(term.value, lower)))
      && (term.kind == IPrefix ==> (Hit(ranges, term, false, depth, text) <==> term.value <= lower))
  {
    hide LowerText, Occurs;
    FoldIsLowerText(ranges, "", text);
    assert "" + text == text;
    assert "" + LowerText(ranges, text).value == LowerText(ranges, text).value;
  }
}
