/** The ordering step of the trace builder (src/components/TraceView.tsx,
    `sortedEvents`): the comparator, and a stable sort standing in for the
    engine's `Array.prototype.sort`. */
module TraceSort {
  import opened Types

  /** The comparator: the difference of the sequence numbers when both events
      have one, otherwise the difference of the timestamps. */
  function Compare(a: Event, b: Event): (r: int)
    ensures a.sequenceNum.Some? == b.sequenceNum.Some? ==> r == SortKey(a) - SortKey(b)
    ensures a.sequenceNum.Some? != b.sequenceNum.Some? ==> r == a.timestamp - b.timestamp
  {
    if a.sequenceNum.Some? && b.sequenceNum.Some? then a.sequenceNum.value - b.sequenceNum.value
    else a.timestamp - b.timestamp
  }

  /** Swapping the arguments negates the comparison, so an event ties with
      itself. */
  lemma CompareAntisymmetric(a: Event, b: Event)
    ensures Compare(a, b) == -Compare(b, a)
    ensures Compare(a, a) == 0
  {
  }

  const Keyed1 := Event("k1", "AGENT_STEP", None, None, Some(1), 10, NoData)
  const Keyed2 := Event("k2", "AGENT_STEP", None, None, Some(2), 0, NoData)
  const Unkeyed := Event("u", "AGENT_STEP", None, None, None, 5, NoData)

  /** On a list that mixes events with and without a sequence number the
      comparator is no order: it puts each of three events before the next
      one round a cycle, so no arrangement of them is sorted by it. */
  lemma MixedComparisonCycles()
    ensures Compare(Keyed1, Keyed2) < 0 && Compare(Keyed2, Unkeyed) < 0 && Compare(Unkeyed, Keyed1) < 0
  {
  }

  /** Inserts `x` before the first element that the comparator places after
      it, that is, after every element it does not precede. */
  function Insert(x: Event, s: seq<Event>): (r: seq<Event>)
    ensures multiset(r) == multiset(s) + multiset{x}
    ensures |r| == |s| + 1
  {
    if s == [] then [x]
    else if Compare(x, s[0]) < 0 then [x] + s
    else
      assert s == [s[0]] + s[1..];
      [s[0]] + Insert(x, s[1..])
  }

  /** `[...events].sort(comparator)`: the events inserted one by one, in
      input order, which keeps events the comparator ties in their input
      order (the sort is stable, as the language requires). */
  function SortEvents(events: seq<Event>): (r: seq<Event>)
    ensures multiset(r) == multiset(events)
    ensures |r| == |events|
    decreases |events|
  {
    if events == [] then []
    else
      var front := events[..|events| - 1];
      assert events == front + [events[|events| - 1]];
      Insert(events[|events| - 1], SortEvents(front))
  }

  /** Every event has a sequence number (`keyed`), or none has: the two
      cases in which the comparator is a consistent order. */
  predicate AllKeyed(s: seq<Event>, keyed: bool) {
    forall e :: e in s ==> e.sequenceNum.Some? == keyed
  }

  /** The key the comparator uses on such a list: the sequence number when
      every event has one, the timestamp when none has. */
  function SortKey(e: Event): int {
    if e.sequenceNum.Some? then e.sequenceNum.value else e.timestamp
  }

  predicate SortedByKey(s: seq<Event>) {
    forall i, j :: 0 <= i < j < |s| ==> SortKey(s[i]) <= SortKey(s[j])
  }

  /** Inserting into a key-sorted list of the same mode keeps it sorted. */
  lemma {:induction false} InsertSorted(x: Event, s: seq<Event>, keyed: bool)
    requires SortedByKey(s) && AllKeyed(s, keyed) && x.sequenceNum.Some? == keyed
    ensures SortedByKey(Insert(x, s))
    decreases |s|
  {
    if s != [] && Compare(x, s[0]) >= 0 {
      assert s[0] in s;
      var tail := s[1..];
      assert forall e :: e in tail ==> e in s;
      InsertSorted(x, tail, keyed);
      var rt := Insert(x, tail);
      InsertMembers(x, tail);
      forall e | e in rt ensures SortKey(s[0]) <= SortKey(e) {
        if e != x {
          var k :| 0 <= k < |tail| && tail[k] == e;
          assert s[k + 1] == e;
        }
      }
    }
  }

  /** The inserted list holds the new element and the old ones, nothing else. */
  lemma InsertMembers(x: Event, s: seq<Event>)
    ensures forall e :: e in Insert(x, s) <==> e == x || e in s
  {
    forall e ensures e in Insert(x, s) <==> e == x || e in s {
      assert e in Insert(x, s) <==> e in multiset(Insert(x, s));
      assert e in s <==> e in multiset(s);
    }
  }

  /** When every event has a sequence number the sorted list is in ascending
      sequence-number order; when none has, in ascending timestamp order. */
  lemma {:induction false} SortedWhenUniform(events: seq<Event>, keyed: bool)
    requires AllKeyed(events, keyed)
    ensures SortedByKey(SortEvents(events))
    decreases |events|
  {
    if events != [] {
      var front := events[..|events| - 1];
      var x := events[|events| - 1];
      assert events == front + [x];
      assert forall e :: e in front ==> e in events;
      SortedWhenUniform(front, keyed);
      var sf := SortEvents(front);
      forall e | e in sf ensures e.sequenceNum.Some? == keyed {
        assert e in multiset(sf);
        assert e in multiset(front);
      }
      assert x in events;
      InsertSorted(x, sf, keyed);
    }
  }

  /** Events already in strictly ascending key order, all with sequence
      numbers or all without, come out as they went in. */
  lemma {:induction false} SortKeepsSortedInput(events: seq<Event>, keyed: bool)
    requires AllKeyed(events, keyed)
    requires forall i, j :: 0 <= i < j < |events| ==> SortKey(events[i]) < SortKey(events[j])
    ensures SortEvents(events) == events
    decreases |events|
  {
    if events != [] {
      var front := events[..|events| - 1];
      var x := events[|events| - 1];
      StrictFront(events, keyed);
      SortKeepsSortedInput(front, keyed);
      InsertAtEnd(x, front);
      SortUnfold(events);
      LastAppended(events);
    }
  }

  lemma SortUnfold(events: seq<Event>)
    requires events != []
    ensures SortEvents(events) == Insert(events[|events| - 1], SortEvents(events[..|events| - 1]))
  {
  }

  lemma LastAppended(events: seq<Event>)
    requires events != []
    ensures events[..|events| - 1] + [events[|events| - 1]] == events
  {
  }

  /** Dropping the last event keeps the list strictly ascending and of one
      mode, and the comparator puts the last event after every other. */
  lemma StrictFront(events: seq<Event>, keyed: bool)
    requires AllKeyed(events, keyed) && events != []
    requires forall i, j :: 0 <= i < j < |events| ==> SortKey(events[i]) < SortKey(events[j])
    ensures var front := events[..|events| - 1];
      AllKeyed(front, keyed) &&
      (forall i, j :: 0 <= i < j < |front| ==> SortKey(front[i]) < SortKey(front[j])) &&
      forall e :: e in front ==> Compare(events[|events| - 1], e) >= 0
  {
    var front := events[..|events| - 1];
    var x := events[|events| - 1];
    assert x in events;
    assert forall e :: e in front ==> e in events;
    forall e | e in front ensures Compare(x, e) >= 0 {
      var k :| 0 <= k < |front| && front[k] == e;
      assert events[k] == e;
    }
  }

  /** An element the comparator puts after every element of `s` goes at the end. */
  lemma {:induction false} InsertAtEnd(x: Event, s: seq<Event>)
    requires forall e :: e in s ==> Compare(x, e) >= 0
    ensures Insert(x, s) == s + [x]
    decreases |s|
  {
    if s != [] {
      var tail := s[1..];
      AfterHead(x, s);
      InsertAtEnd(x, tail);
      InsertUnfold(x, s);
      HeadTailAppend(s, x);
    }
  }

  /** The events of `s` whose key is `k`, in order. */
  function WithKey(s: seq<Event>, k: int): (r: seq<Event>)
    ensures forall i :: 0 <= i < |r| ==> SortKey(r[i]) == k
    decreases |s|
  {
    if s == [] then [] else (if SortKey(s[0]) == k then [s[0]] else []) + WithKey(s[1..], k)
  }

  lemma WithKeyCons(e: Event, s: seq<Event>, k: int)
    ensures WithKey([e] + s, k) == (if SortKey(e) == k then [e] else []) + WithKey(s, k)
  {
    assert ([e] + s)[0] == e;
    assert ([e] + s)[1..] == s;
  }

  lemma {:induction false} WithKeyConcat(a: seq<Event>, b: seq<Event>, k: int)
    ensures WithKey(a + b, k) == WithKey(a, k) + WithKey(b, k)
    decreases |a|
  {
    if a != [] {
      assert a == [a[0]] + a[1..];
      assert a + b == [a[0]] + (a[1..] + b);
      WithKeyCons(a[0], a[1..] + b, k);
      WithKeyCons(a[0], a[1..], k);
      WithKeyConcat(a[1..], b, k);
    } else {
      assert a + b == b;
    }
  }

  /** A key-sorted list that starts above `k` has no event of key `k`. */
  lemma {:induction false} WithKeyAbove(s: seq<Event>, k: int)
    requires SortedByKey(s) && s != [] && SortKey(s[0]) > k
    ensures WithKey(s, k) == []
    decreases |s|
  {
    assert s == [s[0]] + s[1..];
    WithKeyCons(s[0], s[1..], k);
    if |s| > 1 {
      SortedTail(s);
      assert SortKey(s[0]) <= SortKey(s[1]);
      WithKeyAbove(s[1..], k);
    }
  }

  lemma SortedTail(s: seq<Event>)
    requires SortedByKey(s) && s != []
    ensures SortedByKey(s[1..])
  {
    forall i, j | 0 <= i < j < |s| - 1 ensures SortKey(s[1..][i]) <= SortKey(s[1..][j]) {
      assert s[1..][i] == s[i + 1] && s[1..][j] == s[j + 1];
    }
  }

  /** On events of one mode the comparator is the difference of the keys. */
  lemma CompareIsKeyDifference(a: Event, b: Event, keyed: bool)
    requires a.sequenceNum.Some? == keyed && b.sequenceNum.Some? == keyed
    ensures Compare(a, b) == SortKey(a) - SortKey(b)
  {
  }

  /** Inserting into a key-sorted list of the same mode puts the new event
      after every event of its key. */
  lemma {:induction false} InsertWithKey(x: Event, s: seq<Event>, keyed: bool, k: int)
    requires SortedByKey(s) && AllKeyed(s, keyed) && x.sequenceNum.Some? == keyed
    ensures WithKey(Insert(x, s), k) == WithKey(s, k) + (if SortKey(x) == k then [x] else [])
    decreases |s|
  {
    if s == [] {
      assert Insert(x, s) == [x] + [];
      WithKeyCons(x, [], k);
    } else {
      HeadAndTail(s, keyed);
      CompareIsKeyDifference(x, s[0], keyed);
      if Compare(x, s[0]) < 0 {
        InsertInFront(x, s, k);
      } else {
        InsertWithKey(x, s[1..], keyed, k);
        InsertUnfold(x, s);
        ConsShare(s, Insert(x, s[1..]), k, if SortKey(x) == k then [x] else []);
      }
    }
  }

  /** The head of a sorted list of one mode has that mode, and its tail is
      again sorted and of that mode. */
  lemma HeadAndTail(s: seq<Event>, keyed: bool)
    requires SortedByKey(s) && AllKeyed(s, keyed) && s != []
    ensures s[0].sequenceNum.Some? == keyed
    ensures SortedByKey(s[1..]) && AllKeyed(s[1..], keyed)
  {
    assert s[0] in s;
    assert forall e :: e in s[1..] ==> e in s;
    SortedTail(s);
  }

  /** An event the comparator puts after every element of `s` is put after
      its head, and after every element of its tail. */
  lemma AfterHead(x: Event, s: seq<Event>)
    requires s != [] && forall e :: e in s ==> Compare(x, e) >= 0
    ensures Compare(x, s[0]) >= 0 && forall e :: e in s[1..] ==> Compare(x, e) >= 0
  {
    assert s[0] in s;
    assert forall e :: e in s[1..] ==> e in s;
  }

  lemma HeadTailAppend(s: seq<Event>, x: Event)
    requires s != []
    ensures [s[0]] + (s[1..] + [x]) == s + [x]
  {
    assert s == [s[0]] + s[1..];
  }

  /** The new event goes in front of a list whose keys all exceed its own. */
  lemma InsertInFront(x: Event, s: seq<Event>, k: int)
    requires SortedByKey(s) && s != [] && Compare(x, s[0]) < 0 && SortKey(x) < SortKey(s[0])
    ensures WithKey(Insert(x, s), k) == WithKey(s, k) + (if SortKey(x) == k then [x] else [])
  {
    assert Insert(x, s) == [x] + s;
    WithKeyCons(x, s, k);
    if SortKey(x) == k {
      WithKeyAbove(s, k);
      assert WithKey(s, k) + [x] == [x] == [x] + [];
    } else {
      assert [] + WithKey(s, k) == WithKey(s, k) + [];
    }
  }

  /** Putting the head of `s` in front of a list whose share of key `k`
      exceeds that of the tail of `s` by `xs` gives `s`'s share plus `xs`. */
  lemma ConsShare(s: seq<Event>, rt: seq<Event>, k: int, xs: seq<Event>)
    requires s != [] && WithKey(rt, k) == WithKey(s[1..], k) + xs
    ensures WithKey([s[0]] + rt, k) == WithKey(s, k) + xs
  {
    var h := if SortKey(s[0]) == k then [s[0]] else [];
    WithKeyCons(s[0], rt, k);
    assert h + (WithKey(s[1..], k) + xs) == (h + WithKey(s[1..], k)) + xs;
  }

  lemma InsertUnfold(x: Event, s: seq<Event>)
    requires s != [] && Compare(x, s[0]) >= 0
    ensures Insert(x, s) == [s[0]] + Insert(x, s[1..])
  {
  }

  /** The sort is stable: when every event has a sequence number, or none has,
      the events of each key come out in their input order. Together with
      `SortedWhenUniform` and the permutation this fixes the sorted list,
      which is therefore the one the engine's stable sort gives. */
  lemma {:induction false} SortIsStable(events: seq<Event>, keyed: bool, k: int)
    requires AllKeyed(events, keyed)
    ensures WithKey(SortEvents(events), k) == WithKey(events, k)
    decreases |events|
  {
    if events != [] {
      var front := events[..|events| - 1];
      var x := events[|events| - 1];
      assert events == front + [x];
      assert forall e :: e in front ==> e in events;
      SortIsStable(front, keyed, k);
      SortedWhenUniform(front, keyed);
      var sf := SortEvents(front);
      SortedKeepsMode(front, keyed);
      assert x in events;
      InsertWithKey(x, sf, keyed, k);
      WithKeyConcat(front, [x], k);
      WithKeyCons(x, [], k);
      assert [x] + [] == [x];
    }
  }

  /** Sorting keeps every event's mode. */
  lemma SortedKeepsMode(events: seq<Event>, keyed: bool)
    requires AllKeyed(events, keyed)
    ensures AllKeyed(SortEvents(events), keyed)
  {
    var sf := SortEvents(events);
    forall e | e in sf ensures e.sequenceNum.Some? == keyed {
      assert e in multiset(sf);
      assert e in multiset(events);
    }
  }
}
