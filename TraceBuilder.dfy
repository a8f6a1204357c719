/** `buildHierarchicalTree` as the source writes it (src/components/TraceView.tsx):
    loops that fill the lookup tables, and a builder object whose fields are
    the maps and the processed set that `buildNodeTree` and the two linking
    passes update in place. Each piece is proved to compute its functional
    specification, so the properties proved there hold of it. */
module TraceBuilder {
  import opened Types
  import opened TraceTables
  import opened TraceSpec
  import TraceSort

  /** `map.get(key).push(event)` after creating the list when it is missing. */
  function Filed(m: map<string, seq<Event>>, k: string, e: Event): map<string, seq<Event>> {
    m[k := (if k in m then m[k] else []) + [e]]
  }

  /** Filing one more event: a table of a longer prefix. */
  lemma TableStep(sorted: seq<Event>, kind: TableKind, i: nat)
    requires i < |sorted|
    ensures KeyFor(kind, sorted[i]).None? ==> Table(sorted[..i + 1], kind) == Table(sorted[..i], kind)
    ensures KeyFor(kind, sorted[i]).Some? ==>
              Table(sorted[..i + 1], kind) == Filed(Table(sorted[..i], kind), KeyFor(kind, sorted[i]).value, sorted[i])
  {
    assert sorted[..i + 1][..i] == sorted[..i];
  }

  /** One more event in the event-id map. */
  lemma NodesStep(sorted: seq<Event>, i: nat)
    requires i < |sorted|
    ensures InitialNodes(sorted[..i + 1]) == InitialNodes(sorted[..i])[sorted[i].eventId := FreshNode(sorted[i])]
  {
    assert sorted[..i + 1][..i] == sorted[..i];
  }

  /** One iteration of the first pass. */
  method FileNetworkCall(m: map<string, seq<Event>>, e: Event) returns (m': map<string, seq<Event>>)
    ensures KeyFor(NetworkCallsByToolCall, e).None? ==> m' == m
    ensures KeyFor(NetworkCallsByToolCall, e).Some? ==> m' == Filed(m, KeyFor(NetworkCallsByToolCall, e).value, e)
  {
    m' := m;
    if IsNetworkCall(e) {
      var toolCallId := e.data.toolCallId;
      if Truthy(toolCallId) {
        if toolCallId.value !in m' {
          m' := m'[toolCallId.value := []];
        }
        m' := m'[toolCallId.value := m'[toolCallId.value] + [e]];
      }
    }
  }

  /** The first pass: network calls grouped by their truthy tool-call id. */
  method CollectNetworkCalls(sorted: seq<Event>) returns (m: map<string, seq<Event>>)
    ensures m == Table(sorted, NetworkCallsByToolCall)
  {
    m := map[];
    var i := 0;
    while i < |sorted|
      invariant 0 <= i <= |sorted|
      invariant m == Table(sorted[..i], NetworkCallsByToolCall)
    {
      TableStep(sorted, NetworkCallsByToolCall, i);
      m := FileNetworkCall(m, sorted[i]);
      i := i + 1;
    }
    assert sorted[..i] == sorted;
  }

  /** One iteration of the second pass: the event's fresh node replaces any
      earlier node of its id, and the event is filed under its truthy parent
      span id. */
  method FileNode(eventMap: map<string, TraceNode>, children: map<string, seq<Event>>, e: Event)
    returns (eventMap': map<string, TraceNode>, children': map<string, seq<Event>>)
    ensures eventMap' == eventMap[e.eventId := FreshNode(e)]
    ensures KeyFor(ChildrenByParent, e).None? ==> children' == children
    ensures KeyFor(ChildrenByParent, e).Some? ==> children' == Filed(children, KeyFor(ChildrenByParent, e).value, e)
  {
    eventMap' := eventMap[e.eventId := FreshNode(e)];
    children' := children;
    if Truthy(e.parentSpanId) {
      var parentSpanId := e.parentSpanId.value;
      if parentSpanId !in children' {
        children' := children'[parentSpanId := []];
      }
      children' := children'[parentSpanId := children'[parentSpanId] + [e]];
    }
  }

  /** The second pass: a fresh node per event id, and the events grouped by
      their truthy parent span id. */
  method CollectNodes(sorted: seq<Event>) returns (eventMap: map<string, TraceNode>, children: map<string, seq<Event>>)
    ensures eventMap == InitialNodes(sorted)
    ensures children == Table(sorted, ChildrenByParent)
  {
    eventMap := map[];
    children := map[];
    var i := 0;
    while i < |sorted|
      invariant 0 <= i <= |sorted|
      invariant eventMap == InitialNodes(sorted[..i])
      invariant children == Table(sorted[..i], ChildrenByParent)
    {
      NodesStep(sorted, i);
      TableStep(sorted, ChildrenByParent, i);
      eventMap, children := FileNode(eventMap, children, sorted[i]);
      i := i + 1;
    }
    assert sorted[..i] == sorted;
  }

  /** One iteration of the child loop on entry `i` of the span list. */
  function ChildVisit(t: Tables, st: BuildState, parent: string, kids: seq<Event>, i: nat, level: int): (r: BuildState)
    requires Sane(st) && parent in st.nodes && i < |kids|
    ensures Sane(r) && r.nodes.Keys == st.nodes.Keys && st.processed <= r.processed
  {
    var c := kids[i].eventId;
    if c in st.processed || c !in st.nodes then st
    else Push(BuildNode(t, st, c, level + 1, i == |kids| - 1), parent, c)
  }

  /** The child loop is its iterations one after the other. */
  lemma ChildrenStep(t: Tables, st: BuildState, parent: string, kids: seq<Event>, i: nat, level: int)
    requires Sane(st) && parent in st.nodes && i < |kids|
    ensures BuildChildren(t, st, parent, kids, i, level) ==
            BuildChildren(t, ChildVisit(t, st, parent, kids, i, level), parent, kids, i + 1, level)
  {
  }

  /** The mutable state of the tree-building passes: the event-id map of
      nodes, the tool-call start registry and the processed set, over the two
      read-only tables. */
  class TreeBuilder {
    const tables: Tables
    var nodes: map<string, TraceNode>
    var toolCallMap: map<string, string>
    var processed: set<string>

    function State(): BuildState
      reads this
    {
      BuildState(nodes, toolCallMap, processed)
    }

    constructor (tables: Tables, nodes: map<string, TraceNode>)
      ensures this.tables == tables && State() == BuildState(nodes, map[], {})
    {
      this.tables := tables;
      this.nodes := nodes;
      this.toolCallMap := map[];
      this.processed := {};
    }

    /** `buildNodeTree(node, level, isLast)` on the node of `id`. */
    method BuildNodeTree(id: string, level: int, isLast: bool)
      requires Sane(State()) && id in nodes
      modifies this
      ensures State() == BuildNode(tables, old(State()), id, level, isLast)
      decreases Unprocessed(State()), 0, 0
    {
      if id in processed {
        return;
      }
      MarkNode(id, level, isLast);
      BuildChildNodes(id, SpanKids(tables, nodes[id].event), level);
    }

    /** The entry of `buildNodeTree` on an unprocessed node: level, last
        flag, processed mark, network calls and tool-call start registration. */
    method MarkNode(id: string, level: int, isLast: bool)
      requires Sane(State()) && id in nodes && id !in processed
      modifies this
      ensures State() == Mark(tables, old(State()), id, level, isLast)
    {
      var node := nodes[id].(level := level, isLast := isLast);
      processed := processed + {id};
      var e := node.event;
      var toolCallId := e.data.toolCallId;
      if Truthy(toolCallId) {
        node := node.(networkCalls := if toolCallId.value in tables.networkCalls then tables.networkCalls[toolCallId.value] else []);
      }
      nodes := nodes[id := node];
      if IsToolStart(e) && Truthy(toolCallId) {
        toolCallMap := toolCallMap[toolCallId.value := id];
      }
    }

    /** The `forEach` over the span list `kids` of the node of `parent`. */
    method BuildChildNodes(parent: string, kids: seq<Event>, level: int)
      requires Sane(State()) && parent in nodes
      modifies this
      ensures State() == BuildChildren(tables, old(State()), parent, kids, 0, level)
      decreases Unprocessed(State()), 1, |kids| + 1
    {
      ghost var st0 := State();
      var i := 0;
      while i < |kids|
        invariant 0 <= i <= |kids|
        invariant Sane(State()) && parent in nodes && Unprocessed(State()) <= Unprocessed(st0)
        invariant BuildChildren(tables, State(), parent, kids, i, level) == BuildChildren(tables, st0, parent, kids, 0, level)
        decreases |kids| - i
      {
        ghost var st := State();
        VisitChild(parent, kids, i, level);
        ChildrenStep(tables, st, parent, kids, i, level);
        GrowingShrinks(st, State());
        i := i + 1;
      }
    }

    /** One iteration: an entry not yet processed that has a node is built
        one level down, flagged last when it is the final entry, and pushed
        onto the parent's children. */
    method VisitChild(parent: string, kids: seq<Event>, i: nat, level: int)
      requires Sane(State()) && parent in nodes && i < |kids|
      modifies this
      ensures State() == ChildVisit(tables, old(State()), parent, kids, i, level)
      decreases Unprocessed(State()), 1, |kids| - i
    {
      var c := kids[i].eventId;
      if c !in processed && c in nodes {
        BuildNodeTree(c, level + 1, i == |kids| - 1);
        nodes := nodes[parent := nodes[parent].(children := nodes[parent].children + [c])];
      }
    }

    /** The tool-call end pass over the sorted events. */
    method LinkToolCallEnds(sorted: seq<Event>)
      modifies this
      ensures State() == EndLinkPass(sorted, 0, old(State()))
    {
      var i := 0;
      while i < |sorted|
        invariant 0 <= i <= |sorted|
        invariant EndLinkPass(sorted, i, State()) == EndLinkPass(sorted, 0, old(State()))
      {
        VisitEnd(sorted[i]);
        i := i + 1;
      }
    }

    /** One iteration of the end pass: an unprocessed end event whose truthy
        tool-call id has a registered start, and which is not among the
        start's children yet, is appended to them one level down, flagged
        last and marked processed. */
    method VisitEnd(e: Event)
      modifies this
      ensures State() == EndLinkStep(old(State()), e)
    {
      if IsToolEnd(e) && e.eventId !in processed {
        var toolCallId := e.data.toolCallId;
        if Truthy(toolCallId) && toolCallId.value in toolCallMap {
          var startId := toolCallMap[toolCallId.value];
          if startId in nodes && e.eventId in nodes && e.eventId !in nodes[startId].children {
            var level := nodes[startId].level + 1;
            nodes := nodes[e.eventId := nodes[e.eventId].(level := level, isLast := true)];
            nodes := nodes[startId := nodes[startId].(children := nodes[startId].children + [e.eventId])];
            processed := processed + {e.eventId};
          }
        }
      }
    }

    /** The root pass over the sorted events. */
    method BuildRoots(sorted: seq<Event>) returns (roots: seq<string>)
      requires Sane(State())
      modifies this
      ensures PassResult(State(), roots) == RootPass(tables, sorted, 0, old(State()), [])
    {
      roots := [];
      var i := 0;
      while i < |sorted|
        invariant 0 <= i <= |sorted| && Sane(State())
        invariant RootPass(tables, sorted, i, State(), roots) == RootPass(tables, sorted, 0, old(State()), [])
      {
        roots := VisitRoot(sorted, i, roots);
        i := i + 1;
      }
    }

    /** One iteration of the root pass: an unprocessed event that is not a
        network call, has a node, and has no truthy parent span id naming a
        node, is built at level 0 and appended to the roots, flagged last
        when it is the first root or the last sorted event. */
    method VisitRoot(sorted: seq<Event>, i: nat, roots: seq<string>) returns (roots': seq<string>)
      requires Sane(State()) && i < |sorted|
      modifies this
      ensures PassResult(State(), roots') == RootStep(tables, sorted, i, old(State()), roots)
    {
      roots' := roots;
      var e := sorted[i];
      if e.eventId !in processed && !IsNetworkCall(e) {
        if e.eventId in nodes && (!Truthy(e.parentSpanId) || e.parentSpanId.value !in nodes) {
          var isLast := |roots| == 0 || i == |sorted| - 1;
          BuildNodeTree(e.eventId, 0, isLast);
          roots' := roots + [e.eventId];
        }
      }
    }
  }

  /** `buildHierarchicalTree(events)`: the roots, with the event-id map their
      children ids refer to. */
  method BuildHierarchicalTree(events: seq<Event>) returns (roots: seq<string>, nodes: map<string, TraceNode>)
    ensures Forest(roots, nodes) == TraceTree(events)
  {
    var sorted := TraceSort.SortEvents(events);
    var networkCalls := CollectNetworkCalls(sorted);
    var eventMap, children := CollectNodes(sorted);
    var builder := new TreeBuilder(Tables(networkCalls, children), eventMap);
    builder.LinkToolCallEnds(sorted);
    roots := builder.BuildRoots(sorted);
    nodes := builder.nodes;
  }
}
