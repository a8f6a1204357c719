/** The records the dashboard receives from the backend (src/types.ts), reduced
    to the fields the modelled components read, plus the JavaScript notions
    (truthiness, `String.prototype.includes`) those components rely on. */
module Types {

  datatype Option<+T> = None | Some(value: T)

  /** The fields of `event_data` that the trace view, the trace item and the
      event card read. Every field is optional in the payload. */
  datatype EventData = EventData(
    toolCallId: Option<string>,
    toolName: Option<string>,
    stepName: Option<string>,
    model: Option<string>,
    agentName: Option<string>,
    chainType: Option<string>,
    totalTokens: Option<int>,
    promptTokens: Option<int>,
    completionTokens: Option<int>,
    statusCode: Option<int>)

  /** One telemetry event. `sequenceNum` is `None` where the backend sends
      null; `timestamp` is the instant already converted to milliseconds. */
  datatype Event = Event(
    eventId: string,
    eventType: string,
    spanId: Option<string>,
    parentSpanId: Option<string>,
    sequenceNum: Option<int>,
    timestamp: int,
    data: EventData)

  /** A run row of the runs list; `eventTypes` is `None` where the field is
      missing or null. */
  datatype Run = Run(runId: string, userTokenHash: string, eventCount: int, eventTypes: Option<seq<string>>)

  const NoData := EventData(None, None, None, None, None, None, None, None, None, None)

  /** JavaScript truthiness of an optional string: null, undefined and "" are falsy. */
  predicate Truthy(s: Option<string>) {
    s.Some? && s.value != ""
  }

  /** JavaScript truthiness of an optional number (NaN is not modelled). */
  predicate TruthyNum(n: Option<int>) {
    n.Some? && n.value != 0
  }

  /** The optional string as a key, present only when it is truthy. */
  function KeyOf(s: Option<string>): (r: Option<string>)
    ensures r.Some? <==> Truthy(s)
    ensures r.Some? ==> s == r
  {
    if Truthy(s) then s else None
  }

  /** `haystack.includes(needle)`. */
  predicate Contains(haystack: string, needle: string)
    decreases |haystack|
  {
    needle <= haystack || (|haystack| > 0 && Contains(haystack[1..], needle))
  }

  /** `needle` occurs in `haystack` starting at position `i`. */
  predicate OccursAt(haystack: string, needle: string, i: int) {
    0 <= i <= |haystack| - |needle| && haystack[i..i + |needle|] == needle
  }

  /** `Contains` means that the needle occurs at some position. */
  lemma {:induction false} ContainsAt(haystack: string, needle: string)
    ensures Contains(haystack, needle) <==> exists i :: OccursAt(haystack, needle, i)
    decreases |haystack|
  {
    if needle <= haystack {
      assert OccursAt(haystack, needle, 0);
    } else if |haystack| == 0 {
    } else {
      ContainsAt(haystack[1..], needle);
      if exists i :: OccursAt(haystack, needle, i) {
        var i :| OccursAt(haystack, needle, i);
        assert i != 0;
        assert haystack[1..][i - 1..i - 1 + |needle|] == haystack[i..i + |needle|];
        assert OccursAt(haystack[1..], needle, i - 1);
      }
      if Contains(haystack[1..], needle) {
        var j :| OccursAt(haystack[1..], needle, j);
        assert haystack[1..][j..j + |needle|] == haystack[j + 1..j + 1 + |needle|];
        assert OccursAt(haystack, needle, j + 1);
      }
    }
  }

  /** No element occurs twice. */
  predicate NoDup<T(==)>(s: seq<T>) {
    forall i, j :: 0 <= i < j < |s| ==> s[i] != s[j]
  }

  /** `sub` is `s` with some elements left out, the rest in their order
      (matched from the right, the end where both grow). */
  predicate IsSubseq<T(==)>(sub: seq<T>, s: seq<T>)
    decreases |s|
  {
    if sub == [] then true
    else if s == [] then false
    else if sub[|sub| - 1] == s[|s| - 1] then IsSubseq(sub[..|sub| - 1], s[..|s| - 1])
    else IsSubseq(sub, s[..|s| - 1])
  }

  lemma {:induction false} SubseqMembers<T>(sub: seq<T>, s: seq<T>)
    requires IsSubseq(sub, s)
    ensures forall x :: x in sub ==> x in s
    ensures |sub| <= |s|
    decreases |s|
  {
    if sub == [] {
    } else if sub[|sub| - 1] == s[|s| - 1] {
      SubseqMembers(sub[..|sub| - 1], s[..|s| - 1]);
      assert sub == sub[..|sub| - 1] + [s[|s| - 1]];
      assert s == s[..|s| - 1] + [s[|s| - 1]];
    } else {
      SubseqMembers(sub, s[..|s| - 1]);
      assert s == s[..|s| - 1] + [s[|s| - 1]];
    }
  }

  lemma {:induction false} SubseqDropLast<T>(sub: seq<T>, s: seq<T>)
    requires sub != [] && IsSubseq(sub, s)
    ensures IsSubseq(sub[..|sub| - 1], s)
    decreases |s|
  {
    var front := sub[..|sub| - 1];
    if sub[|sub| - 1] == s[|s| - 1] {
      if front != [] {
        SubseqDropLast(front, s[..|s| - 1]);
        assert front[..|front| - 1] == sub[..|sub| - 2];
      }
    } else {
      SubseqDropLast(sub, s[..|s| - 1]);
      if front != [] && front[|front| - 1] == s[|s| - 1] {
        SubseqDropLast(front, s[..|s| - 1]);
      }
    }
  }

  /** Scanning one more element of `s` keeps a subsequence, whether the
      element is kept or left out. */
  lemma SubseqExtend<T>(sub: seq<T>, s: seq<T>, x: T)
    requires IsSubseq(sub, s)
    ensures IsSubseq(sub, s + [x])
    ensures IsSubseq(sub + [x], s + [x])
  {
    assert (s + [x])[..|s|] == s;
    assert (sub + [x])[..|sub|] == sub;
    if sub != [] && sub[|sub| - 1] == x {
      SubseqDropLast(sub, s);
    }
  }

  /** One more element of `s` scanned past a prefix: a subsequence of the
      prefix stays one, with or without that element. */
  lemma SubseqPrefixStep<T>(sub: seq<T>, s: seq<T>, i: nat)
    requires i < |s| && IsSubseq(sub, s[..i])
    ensures IsSubseq(sub, s[..i + 1]) && IsSubseq(sub + [s[i]], s[..i + 1])
  {
    assert s[..i + 1] == s[..i] + [s[i]];
    SubseqExtend(sub, s[..i], s[i]);
  }

  /** A subsequence of a prefix is a subsequence of the whole. */
  lemma {:induction false} SubseqOfPrefix<T>(sub: seq<T>, s: seq<T>, i: nat)
    requires i <= |s| && IsSubseq(sub, s[..i])
    ensures IsSubseq(sub, s)
    decreases |s| - i
  {
    if i == |s| {
      assert s[..i] == s;
    } else {
      SubseqPrefixStep(sub, s, i);
      SubseqOfPrefix(sub, s, i + 1);
    }
  }
}
