/** The linking passes of the trace builder (src/components/TraceView.tsx,
    `buildNodeTree`, the tool-call end pass and the root pass) as functions
    from one builder state to the next. */
module TraceSpec {
  import opened Types
  import opened TraceTables
  import TraceSort

  /** The two tables built before any linking. */
  datatype Tables = Tables(networkCalls: map<string, seq<Event>>, childrenByParent: map<string, seq<Event>>)

  function TablesOf(sorted: seq<Event>): Tables {
    Tables(Table(sorted, NetworkCallsByToolCall), Table(sorted, ChildrenByParent))
  }

  /** The state the passes update: the event-id map of nodes, the map from
      tool-call id to the id of its start node, and the processed ids. */
  datatype BuildState = BuildState(nodes: map<string, TraceNode>, toolCallMap: map<string, string>, processed: set<string>)

  /** Only ids that have a node are ever processed. */
  predicate Sane(st: BuildState) {
    st.processed <= st.nodes.Keys
  }

  /** The number of nodes still to be processed. */
  function Unprocessed(st: BuildState): nat {
    |st.nodes.Keys - st.processed|
  }

  /** The span list of an event: the events whose parent span id is its
      truthy span id. */
  function SpanKids(t: Tables, e: Event): seq<Event> {
    if Truthy(e.spanId) && e.spanId.value in t.childrenByParent then t.childrenByParent[e.spanId.value] else []
  }

  /** The network-call group of an event's truthy tool-call id, or none. */
  function NetCallsFor(t: Tables, e: Event): seq<Event> {
    if Truthy(e.data.toolCallId) && e.data.toolCallId.value in t.networkCalls
    then t.networkCalls[e.data.toolCallId.value] else []
  }

  /** The span list of an event holds, in sorted order, exactly the sorted
      events whose parent span id is its truthy span id. */
  lemma SpanKidsExact(sorted: seq<Event>, e: Event)
    ensures IsSubseq(SpanKids(TablesOf(sorted), e), sorted)
    ensures forall c :: c in SpanKids(TablesOf(sorted), e) <==> Truthy(e.spanId) && c in sorted && c.parentSpanId == e.spanId
  {
    if Truthy(e.spanId) {
      var k := e.spanId.value;
      TableIsFiling(sorted, ChildrenByParent, k);
      FiledUnderMembers(sorted, ChildrenByParent, k);
    }
  }

  /** The network-call group of an event holds, in sorted order, exactly
      the sorted network calls with its truthy tool-call id. */
  lemma NetCallsForExact(sorted: seq<Event>, e: Event)
    ensures IsSubseq(NetCallsFor(TablesOf(sorted), e), sorted)
    ensures forall c :: c in NetCallsFor(TablesOf(sorted), e) <==>
              Truthy(e.data.toolCallId) && c in sorted && IsNetworkCall(c) && c.data.toolCallId == e.data.toolCallId
  {
    if Truthy(e.data.toolCallId) {
      var k := e.data.toolCallId.value;
      TableIsFiling(sorted, NetworkCallsByToolCall, k);
      FiledUnderMembers(sorted, NetworkCallsByToolCall, k);
    }
  }

  predicate IsToolStart(e: Event) {
    e.eventType == "TOOL_CALL_START" || e.eventType == "tool.call.start"
  }

  predicate IsToolEnd(e: Event) {
    e.eventType == "TOOL_CALL_END" || e.eventType == "tool.call.end"
  }

  lemma SubsetCard<T>(a: set<T>, b: set<T>)
    requires a <= b
    ensures |a| <= |b|
  {
    assert b == a + (b - a);
  }

  /** Marking an unprocessed node processed leaves one node fewer to go. */
  lemma MarkingShrinks(st: BuildState, id: string, st1: BuildState)
    requires Sane(st) && id in st.nodes && id !in st.processed
    requires st1.nodes.Keys == st.nodes.Keys && st1.processed == st.processed + {id}
    ensures Unprocessed(st1) < Unprocessed(st)
  {
    assert st1.nodes.Keys - st1.processed == (st.nodes.Keys - st.processed) - {id};
  }

  /** Processing more nodes never leaves more to go. */
  lemma GrowingShrinks(st: BuildState, st1: BuildState)
    requires st1.nodes.Keys == st.nodes.Keys && st.processed <= st1.processed
    ensures Unprocessed(st1) <= Unprocessed(st)
  {
    SubsetCard(st1.nodes.Keys - st1.processed, st.nodes.Keys - st.processed);
  }

  /** The entry of `buildNodeTree` on an unprocessed node: set its level and
      last flag, mark it processed, give it the network calls of its truthy
      tool-call id, and register a tool-call start under its tool-call id. */
  function Mark(t: Tables, st: BuildState, id: string, level: int, isLast: bool): (r: BuildState)
    requires Sane(st) && id in st.nodes && id !in st.processed
    ensures Sane(r) && r.nodes.Keys == st.nodes.Keys && r.processed == st.processed + {id}
    ensures Unprocessed(r) < Unprocessed(st)
  {
    var node := st.nodes[id];
    var e := node.event;
    var calls := if Truthy(e.data.toolCallId) then NetCallsFor(t, e) else node.networkCalls;
    var starts := if IsToolStart(e) && Truthy(e.data.toolCallId)
                  then st.toolCallMap[e.data.toolCallId.value := id] else st.toolCallMap;
    var r := BuildState(st.nodes[id := node.(level := level, isLast := isLast, networkCalls := calls)],
                        starts, st.processed + {id});
    MarkingShrinks(st, id, r);
    r
  }

  /** `node.children.push(childNode)`. */
  function Push(st: BuildState, parent: string, c: string): (r: BuildState)
    requires parent in st.nodes
    ensures r.nodes.Keys == st.nodes.Keys && r.processed == st.processed
  {
    st.(nodes := st.nodes[parent := st.nodes[parent].(children := st.nodes[parent].children + [c])])
  }

  /** `buildNodeTree(node, level, isLast)` for the node of `id`: nothing if
      it is processed; otherwise mark it and build its span children. */
  function BuildNode(t: Tables, st: BuildState, id: string, level: int, isLast: bool): (r: BuildState)
    requires Sane(st) && id in st.nodes
    ensures Sane(r) && r.nodes.Keys == st.nodes.Keys && st.processed <= r.processed
    ensures id in r.processed
    decreases Unprocessed(st), 0, 0
  {
    if id in st.processed then st
    else BuildChildren(t, Mark(t, st, id, level, isLast), id, SpanKids(t, st.nodes[id].event), 0, level)
  }

  /** The `forEach` over a span list from position `i`: each entry not yet
      processed is built one level down, flagged last when it is the final
      entry of the list, and then pushed onto the parent's children. */
  function BuildChildren(t: Tables, st: BuildState, parent: string, kids: seq<Event>, i: nat, level: int): (r: BuildState)
    requires Sane(st) && parent in st.nodes && i <= |kids|
    ensures Sane(r) && r.nodes.Keys == st.nodes.Keys && st.processed <= r.processed
    decreases Unprocessed(st), 1, |kids| - i
  {
    if i == |kids| then st
    else
      var c := kids[i].eventId;
      if c in st.processed || c !in st.nodes then BuildChildren(t, st, parent, kids, i + 1, level)
      else
        var st3 := Push(BuildNode(t, st, c, level + 1, i == |kids| - 1), parent, c);
        GrowingShrinks(st, st3);
        BuildChildren(t, st3, parent, kids, i + 1, level)
  }

  /** One step of the tool-call end pass: an unprocessed end event whose
      truthy tool-call id has a registered start node, and which is not
      already among that node's children, becomes its last child one level
      down and is marked processed. */
  function EndLinkStep(st: BuildState, e: Event): (r: BuildState)
    ensures r.nodes.Keys == st.nodes.Keys && st.toolCallMap == r.toolCallMap
    ensures Sane(st) ==> Sane(r)
  {
    if IsToolEnd(e) && e.eventId !in st.processed && Truthy(e.data.toolCallId)
       && e.data.toolCallId.value in st.toolCallMap
       && st.toolCallMap[e.data.toolCallId.value] in st.nodes && e.eventId in st.nodes
       && e.eventId !in st.nodes[st.toolCallMap[e.data.toolCallId.value]].children
    then
      var startId := st.toolCallMap[e.data.toolCallId.value];
      var level := st.nodes[startId].level + 1;
      var nodes1 := st.nodes[e.eventId := st.nodes[e.eventId].(level := level, isLast := true)];
      var nodes2 := nodes1[startId := nodes1[startId].(children := nodes1[startId].children + [e.eventId])];
      BuildState(nodes2, st.toolCallMap, st.processed + {e.eventId})
    else st
  }

  /** The tool-call end pass over the sorted events from position `i`. */
  function EndLinkPass(sorted: seq<Event>, i: nat, st: BuildState): (r: BuildState)
    requires i <= |sorted|
    ensures r.nodes.Keys == st.nodes.Keys && r.toolCallMap == st.toolCallMap
    ensures Sane(st) ==> Sane(r)
    decreases |sorted| - i
  {
    if i == |sorted| then st else EndLinkPass(sorted, i + 1, EndLinkStep(st, sorted[i]))
  }

  /** The root test of the root pass: not a network call and with no truthy
      parent span id that is a key of the event-id map. */
  predicate RootCandidate(nodes: map<string, TraceNode>, e: Event) {
    !IsNetworkCall(e) && e.eventId in nodes && (!Truthy(e.parentSpanId) || e.parentSpanId.value !in nodes)
  }

  datatype PassResult = PassResult(state: BuildState, roots: seq<string>)

  /** One step of the root pass on the event at position `i`: an
      unprocessed root candidate is built at level 0 and pushed onto the
      roots, flagged last when it is the first root or the last sorted
      event; any other event changes nothing. */
  function RootStep(t: Tables, sorted: seq<Event>, i: nat, st: BuildState, roots: seq<string>): (r: PassResult)
    requires Sane(st) && i < |sorted|
    ensures Sane(r.state) && r.state.nodes.Keys == st.nodes.Keys && st.processed <= r.state.processed
    ensures roots <= r.roots
  {
    var e := sorted[i];
    if e.eventId !in st.processed && RootCandidate(st.nodes, e) then
      PassResult(BuildNode(t, st, e.eventId, 0, |roots| == 0 || i == |sorted| - 1), roots + [e.eventId])
    else PassResult(st, roots)
  }

  /** The root pass over the sorted events from position `i`. */
  function RootPass(t: Tables, sorted: seq<Event>, i: nat, st: BuildState, roots: seq<string>): (r: PassResult)
    requires Sane(st) && i <= |sorted|
    ensures Sane(r.state) && r.state.nodes.Keys == st.nodes.Keys && st.processed <= r.state.processed
    ensures roots <= r.roots
    decreases |sorted| - i
  {
    if i == |sorted| then PassResult(st, roots)
    else
      var next := RootStep(t, sorted, i, st, roots);
      RootPass(t, sorted, i + 1, next.state, next.roots)
  }

  /** The result of the builder: the roots in order and the nodes they
      reach, by event id. */
  datatype Forest = Forest(roots: seq<string>, nodes: map<string, TraceNode>)

  /** The state before linking: a fresh node per event id, nothing processed
      and no tool-call start registered. */
  function InitialState(sorted: seq<Event>): BuildState {
    BuildState(InitialNodes(sorted), map[], {})
  }

  /** `buildHierarchicalTree`: sort, build the tables and the node map, run
      the end pass, then the root pass. */
  function TraceTree(events: seq<Event>): Forest {
    var sorted := TraceSort.SortEvents(events);
    var t := TablesOf(sorted);
    var linked := EndLinkPass(sorted, 0, InitialState(sorted));
    var built := RootPass(t, sorted, 0, linked, []);
    Forest(built.roots, built.state.nodes)
  }
}
