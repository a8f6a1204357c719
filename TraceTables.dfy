/** The two lookup tables and the node map that the trace builder fills
    before it links anything (src/components/TraceView.tsx, first and second
    pass), as functions of the sorted events. */
module TraceTables {
  import opened Types

  /** A tree node. `children` holds the event ids of the child nodes: every
      node is reached through the event-id map, so an id names its node. */
  datatype TraceNode = TraceNode(
    event: Event,
    children: seq<string>,
    networkCalls: seq<Event>,
    level: int,
    isLast: bool)

  /** The node created for an event in the second pass. */
  function FreshNode(e: Event): TraceNode {
    TraceNode(e, [], [], 0, false)
  }

  predicate IsNetworkCall(e: Event) {
    e.eventType == "NETWORK_CALL"
  }

  /** The two grouping tables: network calls by tool-call id, and events by
      parent span id. */
  datatype TableKind = NetworkCallsByToolCall | ChildrenByParent

  /** The key an event is filed under in a table, if any: a network call's
      truthy tool-call id, or any event's truthy parent span id. */
  function KeyFor(kind: TableKind, e: Event): (k: Option<string>)
    ensures kind == NetworkCallsByToolCall ==> (k.Some? <==> IsNetworkCall(e) && Truthy(e.data.toolCallId))
    ensures kind == NetworkCallsByToolCall && k.Some? ==> e.data.toolCallId == k
    ensures kind == ChildrenByParent ==> (k.Some? <==> Truthy(e.parentSpanId))
    ensures kind == ChildrenByParent && k.Some? ==> e.parentSpanId == k
  {
    match kind
    case NetworkCallsByToolCall => if IsNetworkCall(e) then KeyOf(e.data.toolCallId) else None
    case ChildrenByParent => KeyOf(e.parentSpanId)
  }

  /** The events filed under `k`, in the order of `s`: the reference
      definition that the tables are checked against. */
  function FiledUnder(s: seq<Event>, kind: TableKind, k: string): (r: seq<Event>)
    ensures IsSubseq(r, s)
    ensures forall i :: 0 <= i < |r| ==> KeyFor(kind, r[i]) == Some(k)
    decreases |s|
  {
    if s == [] then []
    else
      var front := s[..|s| - 1];
      var last := s[|s| - 1];
      var r := FiledUnder(front, kind, k);
      assert s == front + [last];
      SubseqExtend(r, front, last);
      if KeyFor(kind, last) == Some(k) then r + [last] else r
  }

  /** The events filed under a key are exactly those of that key. */
  lemma {:induction false} FiledUnderMembers(s: seq<Event>, kind: TableKind, k: string)
    ensures forall e :: e in FiledUnder(s, kind, k) <==> e in s && KeyFor(kind, e) == Some(k)
    decreases |s|
  {
    if s != [] {
      var front := s[..|s| - 1];
      var last := s[|s| - 1];
      FiledUnderMembers(front, kind, k);
      assert s == front + [last];
      assert forall e :: e in s <==> e in front || e == last;
    }
  }

  /** A table as the passes build it: for each event in order, create the
      key's list if missing and push the event onto it. */
  function Table(s: seq<Event>, kind: TableKind): (m: map<string, seq<Event>>)
    ensures forall k :: k in m <==> exists e :: e in s && KeyFor(kind, e) == Some(k)
    decreases |s|
  {
    if s == [] then map[]
    else
      var front := s[..|s| - 1];
      var last := s[|s| - 1];
      var m := Table(front, kind);
      assert s == front + [last];
      assert forall e :: e in s <==> e in front || e == last;
      match KeyFor(kind, last)
      case None => m
      case Some(k) => m[k := (if k in m then m[k] else []) + [last]]
  }

  /** Each list of a table holds exactly the events filed under its key, in
      sorted order, and a key is present exactly when some event is filed
      under it. */
  lemma {:induction false} TableIsFiling(s: seq<Event>, kind: TableKind, k: string)
    ensures k in Table(s, kind) <==> FiledUnder(s, kind, k) != []
    ensures k in Table(s, kind) ==> Table(s, kind)[k] == FiledUnder(s, kind, k)
    decreases |s|
  {
    if s != [] {
      var front := s[..|s| - 1];
      TableIsFiling(front, kind, k);
    }
  }

  /** Every event lies under at most one key of a table: the one it is filed
      under. */
  lemma FiledUnderOneKey(s: seq<Event>, kind: TableKind, k1: string, k2: string, e: Event)
    requires k1 in Table(s, kind) && k2 in Table(s, kind)
    requires e in Table(s, kind)[k1] && e in Table(s, kind)[k2]
    ensures k1 == k2
  {
    TableIsFiling(s, kind, k1);
    TableIsFiling(s, kind, k2);
    FiledUnderMembers(s, kind, k1);
    FiledUnderMembers(s, kind, k2);
  }

  /** The network-call table holds exactly the NETWORK_CALL events with a
      truthy tool-call id, each under that id; the children table every event
      with a truthy parent span id, under it, whatever its type. */
  lemma TablesFileEveryCandidate(s: seq<Event>, e: Event)
    requires e in s
    ensures IsNetworkCall(e) && Truthy(e.data.toolCallId) ==>
            e.data.toolCallId.value in Table(s, NetworkCallsByToolCall) &&
            e in Table(s, NetworkCallsByToolCall)[e.data.toolCallId.value]
    ensures Truthy(e.parentSpanId) ==>
            e.parentSpanId.value in Table(s, ChildrenByParent) &&
            e in Table(s, ChildrenByParent)[e.parentSpanId.value]
  {
    if IsNetworkCall(e) && Truthy(e.data.toolCallId) {
      TableIsFiling(s, NetworkCallsByToolCall, e.data.toolCallId.value);
      FiledUnderMembers(s, NetworkCallsByToolCall, e.data.toolCallId.value);
    }
    if Truthy(e.parentSpanId) {
      TableIsFiling(s, ChildrenByParent, e.parentSpanId.value);
      FiledUnderMembers(s, ChildrenByParent, e.parentSpanId.value);
    }
  }

  /** The event-id map: a fresh node per event, a later event with the same
      id replacing the earlier one's node. */
  function InitialNodes(s: seq<Event>): (m: map<string, TraceNode>)
    ensures forall id :: id in m <==> exists e :: e in s && e.eventId == id
    ensures forall id :: id in m ==> m[id] == FreshNode(m[id].event) && m[id].event.eventId == id && m[id].event in s
    decreases |s|
  {
    if s == [] then map[]
    else
      var front := s[..|s| - 1];
      var last := s[|s| - 1];
      assert s == front + [last];
      assert forall e :: e in s <==> e in front || e == last;
      InitialNodes(front)[last.eventId := FreshNode(last)]
  }

  /** The node of an id holds the last event with that id. */
  lemma {:induction false} LastEventWins(s: seq<Event>, i: nat)
    requires i < |s|
    requires forall j :: i < j < |s| ==> s[j].eventId != s[i].eventId
    ensures s[i].eventId in InitialNodes(s) && InitialNodes(s)[s[i].eventId].event == s[i]
    decreases |s|
  {
    if i < |s| - 1 {
      var front := s[..|s| - 1];
      assert front[i] == s[i];
      LastEventWins(front, i);
    }
  }
}
