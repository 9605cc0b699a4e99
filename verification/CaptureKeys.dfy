/** The capture state of src/lql_json_scan.c: which keys a path still follows, and the spans found so far. */
module CaptureKeys {
  import opened Wrappers
  import opened Digits
  import opened JsonSyntax
  import opened Query
  import opened ScanEffect
  import opened Captures

  /** src/lql_json_scan.c:1762-1785: an index segment is a number in decimal; one that overflows size_t is none. */
  method DigitsMatchIndex(segment: string, index: nat) returns (hit: bool)
    requires index <= SIZE_MAX
    ensures hit == (|segment| > 0 && AllDigits(segment) && NatOf(segment) == index)
  {
    hide NatOf;
    if |segment| == 0 {
      return false;
    }
    var value := 0;
    NatOfEmpty();
    assert segment[..0] == "";
    for i := 0 to |segment|
      invariant AllDigits(segment[..i]) && value == NatOf(segment[..i])
    {
      assert segment[..i + 1] == segment[..i] + [segment[i]];
      if !IsDigit(segment[i]) {
        return false;
      }
      var digit := DigitValue(segment[i]);
      NatOfSnoc(segment[..i], segment[i]);
      if value > (SIZE_MAX - digit) / 10 {
        PrefixIsSmaller(segment, i + 1);
        return false;
      }
      value := value * 10 + digit;
    }
    assert segment[..|segment|] == segment;
    hit := value == index;
  }

  lemma {:induction false} PrefixIsSmaller(s: string, k: nat)
    requires k <= |s|
    ensures NatOf(s[..k]) <= NatOf(s)
    decreases |s| - k
  {
    if k == |s| {
      assert s[..k] == s;
    } else {
      PrefixIsSmaller(s, k + 1);
      assert s[..k + 1] == s[..k] + [s[k]];
      NatOfSnoc(s[..k], s[k]);
    }
  }

  lemma NatOfEmpty()
    ensures NatOf("") == 0
  {
  }

  class Collector {
    const keys: seq<seq<string>>
    /** capture_path_active: for every depth, the keys whose path led there. */
    var pathActive: seq<set<nat>>
    var spans: map<nat, Span>

    ghost predicate Valid()
      reads this
    {
      |pathActive| == MAX_DEPTH
    }

    constructor (keys: seq<seq<string>>)
      ensures Valid() && this.keys == keys && spans == map[]
    {
      this.keys := keys;
      pathActive, spans := seq(MAX_DEPTH, _ => {}), map[];
    }

    /** A record starts with no span, and every key at the root (src/lql_json_scan.c:5114-5123). */
    method Reset()
      requires Valid()
      modifies this
      ensures Valid() && spans == map[] && pathActive[0] == AllBits(|keys|)
    {
      spans := map[];
      SetPath(0, AllBits(|keys|));
    }

    function ActiveAt(depth: nat): set<nat>
      requires Valid()
      reads this
    {
      if depth < MAX_DEPTH then pathActive[depth] else {}
    }

    method SetPath(depth: nat, below: set<nat>)
      requires Valid()
      modifies this`pathActive
      ensures Valid() && (depth > 0 ==> PathsKept(pathActive, old(pathActive), depth - 1))
      ensures depth < MAX_DEPTH ==> pathActive[depth] == below
    {
      if depth < MAX_DEPTH {
        pathActive := pathActive[depth := below];
      }
    }

    /** src/lql_json_scan.c:4521-4531: the keys that go on through the element at this index. */
    method MatchIndex(source: set<nat>, depth: nat, index: nat) returns (matched: set<nat>)
      requires index <= SIZE_MAX
      ensures matched == SteppedKeys(keys, source, NoKey, depth, index)
    {
      hide NatOf, AllDigits;
      matched := {};
      for i := 0 to |keys|
        invariant matched == set j | j in SteppedKeys(keys, source, NoKey, depth, index) && j < i
      {
        if i in source && depth < |keys[i]| {
          var hit := DigitsMatchIndex(keys[i][depth], index);
          if hit {
            matched := matched + {i};
          }
        }
      }
    }

    // -------------------------------------------------------------- spans

    /** src/lql_json_scan.c:4383-4394 and 4543-4553. */
    method Mark(values: set<nat>, start: nat, end: nat)
      requires Valid() && start <= end && forall i :: i in values ==> i < |keys|
      modifies this`spans
      ensures Valid() && spans == old(spans) + Everywhere(values, Span(start, end - start))
    {
      ghost var was := spans;
      for i := 0 to |keys|
        invariant Valid() && spans == was + map j | j in values && j < i :: Span(start, end - start)
      {
        MarkOne(was, values, i, Span(start, end - start));
        if i in values {
          spans := spans[i := Span(start, end - start)];
        }
      }
      assert (map j | j in values && j < |keys| :: Span(start, end - start)) == Everywhere(values, Span(start, end - start));
    }
  }

  lemma MarkOne(was: map<nat, Span>, values: set<nat>, i: nat, span: Span)
    ensures var marked := was + map j | j in values && j < i :: span;
      (if i in values then marked[i := span] else marked) == was + map j | j in values && j < i + 1 :: span
  {
  }
}
