/** The run timeline page (src/components/RunTimeline.tsx): the event-type
    filter, the list of distinct types offered in the filter menu with their
    counts, and the choice between the timeline and the "no events" notice. */
module RunTimeline {
  import opened Types

  /** `events.filter(e => e.event_type === t)`, built from the right so that
      it lines up with `IsSubseq`. */
  function OfType(events: seq<Event>, t: string): (r: seq<Event>)
    ensures forall i :: 0 <= i < |r| ==> r[i].eventType == t
    ensures IsSubseq(r, events)
    decreases |events|
  {
    if events == [] then []
    else
      var front := events[..|events| - 1];
      var last := events[|events| - 1];
      var r := OfType(front, t);
      assert events == front + [last];
      SubseqExtend(r, front, last);
      if last.eventType == t then r + [last] else r
  }

  /** The filter keeps exactly the events of type `t`. */
  lemma {:induction false} OfTypeMembers(events: seq<Event>, t: string)
    ensures forall e :: e in OfType(events, t) <==> e in events && e.eventType == t
    decreases |events|
  {
    if events != [] {
      var front := events[..|events| - 1];
      var last := events[|events| - 1];
      OfTypeMembers(front, t);
      assert events == front + [last];
      assert forall e :: e in events <==> e in front || e == last;
    }
  }

  /** The filter keeps every event of type `t` as often as it occurs, and
      no other event. */
  lemma {:induction false} OfTypeCounts(events: seq<Event>, t: string)
    ensures forall e :: multiset(OfType(events, t))[e] == if e.eventType == t then multiset(events)[e] else 0
    decreases |events|
  {
    if events != [] {
      var front := events[..|events| - 1];
      var last := events[|events| - 1];
      OfTypeCounts(front, t);
      LastSplit(events);
      assert OfType(events, t) == OfType(front, t) + (if last.eventType == t then [last] else []);
    }
  }

  lemma LastSplit(events: seq<Event>)
    requires events != []
    ensures multiset(events) == multiset(events[..|events| - 1]) + multiset{events[|events| - 1]}
  {
    assert events == events[..|events| - 1] + [events[|events| - 1]];
  }

  /** `filteredEvents`: an empty (falsy) filter keeps every event; any other
      filter keeps, in order, exactly the events of that type. */
  function FilteredEvents(events: seq<Event>, filter: string): (r: seq<Event>)
    ensures filter == "" ==> r == events
    ensures filter != "" ==> IsSubseq(r, events)
    ensures filter != "" ==> forall e :: e in r <==> e in events && e.eventType == filter
    ensures filter != "" ==> forall e :: multiset(r)[e] == if e.eventType == filter then multiset(events)[e] else 0
  {
    OfTypeMembers(events, filter);
    OfTypeCounts(events, filter);
    if filter != "" then OfType(events, filter) else events
  }

  /** The number of events of type `t`, as shown beside `t` in the menu. */
  function TypeCount(events: seq<Event>, t: string): (n: nat)
    ensures n <= |events|
    ensures n == 0 <==> forall e :: e in events ==> e.eventType != t
    ensures n == |Positions(events, t)|
  {
    var r := OfType(events, t);
    OfTypeMembers(events, t);
    SubseqMembers(r, events);
    OfTypeAtPositions(events, t);
    assert r != [] ==> r[0] in r;
    |r|
  }

  /** The positions of the events of type `t`. */
  function Positions(events: seq<Event>, t: string): set<nat> {
    set i: nat | i < |events| && events[i].eventType == t
  }

  /** The filter keeps one event per position of that type. */
  lemma {:induction false} OfTypeAtPositions(events: seq<Event>, t: string)
    ensures |OfType(events, t)| == |Positions(events, t)|
    decreases |events|
  {
    if events == [] {
      assert Positions(events, t) == {};
    } else {
      var front := events[..|events| - 1];
      OfTypeAtPositions(front, t);
      PositionsStep(events, t);
    }
  }

  /** The positions of a list are those of its front, plus the last one
      when the last event has the type. */
  lemma PositionsStep(events: seq<Event>, t: string)
    requires events != []
    ensures var front := events[..|events| - 1];
            Positions(events, t) == Positions(front, t) + (if events[|events| - 1].eventType == t then {|front|} else {})
    ensures |events| - 1 !in Positions(events[..|events| - 1], t)
  {
    var front := events[..|events| - 1];
    forall i: nat | i < |front| ensures events[i] == front[i] {
    }
  }

  /** `[...new Set(events.map(e => e.event_type))]`: the types in order of
      first occurrence, each once. */
  function UniqueEventTypes(events: seq<Event>): (r: seq<string>)
    ensures NoDup(r)
    ensures forall e :: e in events ==> e.eventType in r
    ensures forall t :: t in r ==> exists e :: e in events && e.eventType == t
    decreases |events|
  {
    if events == [] then []
    else
      var front := events[..|events| - 1];
      var last := events[|events| - 1];
      var r := UniqueEventTypes(front);
      assert events == front + [last];
      if last.eventType in r then r else r + [last.eventType]
  }

  /** First-occurrence order: the distinct types of a prefix of the events are
      a prefix of the distinct types of all of them, so a type that shows up
      earlier is listed earlier. */
  lemma {:induction false} UniqueTypesPrefix(events: seq<Event>, n: nat)
    requires n <= |events|
    ensures UniqueEventTypes(events[..n]) <= UniqueEventTypes(events)
    decreases |events|
  {
    if n < |events| {
      var front := events[..|events| - 1];
      assert events[..n] == front[..n];
      UniqueTypesPrefix(front, n);
    } else {
      assert events[..n] == events;
    }
  }

  /** The sum of the menu counts over a list of types. */
  function SumCounts(events: seq<Event>, ts: seq<string>): nat
    decreases |ts|
  {
    if ts == [] then 0 else TypeCount(events, ts[0]) + SumCounts(events, ts[1..])
  }

  /** Appending an event raises the count of its own type by one and leaves
      every other count as it was. */
  lemma CountAfterAppend(events: seq<Event>, x: Event, t: string)
    ensures TypeCount(events + [x], t) == TypeCount(events, t) + (if x.eventType == t then 1 else 0)
  {
    assert (events + [x])[..|events|] == events;
  }

  /** Over a list of distinct types, appending an event raises the sum of the
      counts by one if its type is listed, and leaves it alone otherwise. */
  lemma {:induction false} SumAfterAppend(events: seq<Event>, x: Event, ts: seq<string>)
    requires NoDup(ts)
    ensures SumCounts(events + [x], ts) == SumCounts(events, ts) + (if x.eventType in ts then 1 else 0)
    decreases |ts|
  {
    if ts != [] {
      CountAfterAppend(events, x, ts[0]);
      assert NoDup(ts[1..]) by {
        forall i, j | 0 <= i < j < |ts[1..]| ensures ts[1..][i] != ts[1..][j] {
          assert ts[1..][i] == ts[i + 1] && ts[1..][j] == ts[j + 1];
        }
      }
      SumAfterAppend(events, x, ts[1..]);
      assert ts == [ts[0]] + ts[1..];
      if x.eventType == ts[0] {
        assert x.eventType !in ts[1..] by {
          forall k | 0 <= k < |ts[1..]| ensures ts[1..][k] != ts[0] {
            assert ts[1..][k] == ts[k + 1];
          }
        }
      }
    }
  }

  /** The sum of counts distributes over concatenated type lists. */
  lemma {:induction false} SumConcat(events: seq<Event>, a: seq<string>, b: seq<string>)
    ensures SumCounts(events, a + b) == SumCounts(events, a) + SumCounts(events, b)
    decreases |a|
  {
    if a == [] {
      assert a + b == b;
    } else {
      assert (a + b)[0] == a[0] && (a + b)[1..] == a[1..] + b;
      SumConcat(events, a[1..], b);
    }
  }

  /** The per-type counts over the distinct types add up to the "All Events"
      total: every event is counted under exactly one entry of the menu. */
  lemma {:induction false} CountsSumToTotal(events: seq<Event>)
    ensures SumCounts(events, UniqueEventTypes(events)) == |events|
    decreases |events|
  {
    if events != [] {
      var front := events[..|events| - 1];
      var last := events[|events| - 1];
      CountsSumToTotal(front);
      SumAfterLast(events);
    }
  }

  /** The step of `CountsSumToTotal`: the last event adds one to the sum,
      under its type, listed already or newly. */
  lemma SumAfterLast(events: seq<Event>)
    requires events != []
    ensures var front := events[..|events| - 1];
            SumCounts(events, UniqueEventTypes(events)) == SumCounts(front, UniqueEventTypes(front)) + 1
  {
    var front := events[..|events| - 1];
    var last := events[|events| - 1];
    assert events == front + [last];
    var u := UniqueEventTypes(front);
    SumAfterAppend(front, last, u);
    if last.eventType !in u {
      SumConcat(events, u, [last.eventType]);
      assert TypeCount(front, last.eventType) == 0;
      CountAfterAppend(front, last, last.eventType);
    }
  }

  /** One entry of the filter menu: the value it selects and the count it
      shows. */
  datatype MenuOption = MenuOption(value: string, count: nat)

  /** The menu: "All Events" with the total, then each distinct type with its
      count. */
  function FilterMenu(events: seq<Event>): (m: seq<MenuOption>)
    ensures |m| == |UniqueEventTypes(events)| + 1
    ensures m[0] == MenuOption("", |events|)
    ensures forall k :: 0 <= k < |UniqueEventTypes(events)| ==>
              m[k + 1] == MenuOption(UniqueEventTypes(events)[k], TypeCount(events, UniqueEventTypes(events)[k]))
  {
    var u := UniqueEventTypes(events);
    var rest := TypeOptions(events, u);
    var m := [MenuOption("", |events|)] + rest;
    assert forall k :: 0 <= k < |u| ==> m[k + 1] == rest[k];
    m
  }

  function TypeOptions(events: seq<Event>, ts: seq<string>): (m: seq<MenuOption>)
    ensures |m| == |ts|
    ensures forall k :: 0 <= k < |ts| ==> m[k] == MenuOption(ts[k], TypeCount(events, ts[k]))
    decreases |ts|
  {
    if ts == [] then [] else [MenuOption(ts[0], TypeCount(events, ts[0]))] + TypeOptions(events, ts[1..])
  }

  /** The count shown on a menu entry is the number of cards that selecting it
      puts on the page, for "All Events" and for every non-empty type. (An
      event type that is the empty string would get an entry whose value is
      the falsy filter, which shows every event.) */
  lemma MenuCountsMatchCards(events: seq<Event>, k: nat)
    requires k < |FilterMenu(events)|
    requires k == 0 || FilterMenu(events)[k].value != ""
    ensures FilterMenu(events)[k].count == |FilteredEvents(events, FilterMenu(events)[k].value)|
  {
  }

  /** What the page shows under the menu. */
  datatype TimelineBody = NoEventsNotice | Timeline(cards: seq<Event>)

  /** The "No events found" notice exactly when the filtered list is empty,
      otherwise one card per filtered event, in order. */
  function Body(events: seq<Event>, filter: string): (b: TimelineBody)
    ensures b.NoEventsNotice? <==> FilteredEvents(events, filter) == []
    ensures b.Timeline? ==> b.cards == FilteredEvents(events, filter)
  {
    var shown := FilteredEvents(events, filter);
    if |shown| == 0 then NoEventsNotice else Timeline(shown)
  }

  /** A non-empty filter that no event has brings up the notice; a filter
      picked from the menu never does, and neither does the empty filter on a
      non-empty run. */
  lemma NoticeExactlyWhenNothingMatches(events: seq<Event>, filter: string)
    ensures filter != "" && (forall e :: e in events ==> e.eventType != filter) ==> Body(events, filter).NoEventsNotice?
    ensures filter in UniqueEventTypes(events) && filter != "" ==> Body(events, filter).Timeline?
    ensures filter == "" ==> (Body(events, filter).NoEventsNotice? <==> events == [])
  {
    if filter in UniqueEventTypes(events) && filter != "" {
      var e :| e in events && e.eventType == filter;
      assert e in FilteredEvents(events, filter);
    }
  }
}
