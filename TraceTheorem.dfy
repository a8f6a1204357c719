/** What `buildHierarchicalTree` returns, stated on the whole builder: the
    end pass finds no registered start and changes nothing, and the forest of
    the root pass is a well-formed tree over the event-id map. */
module TraceTheorem {
  import opened Types
  import opened TraceTables
  import opened TraceSpec
  import opened TraceInvariant
  import opened TraceOrderProof
  import opened TraceRootProof
  import opened TraceFlagProof
  import TraceSort

  /** With no tool-call start registered, the tool-call end pass changes
      nothing: it runs before any node is built, so it always finds the map
      empty. */
  lemma {:induction false} EndLinkIdle(sorted: seq<Event>, i: nat, st: BuildState)
    requires i <= |sorted| && st.toolCallMap == map[]
    ensures EndLinkPass(sorted, i, st) == st
    decreases |sorted| - i
  {
    if i < |sorted| {
      assert EndLinkStep(st, sorted[i]) == st;
      EndLinkIdle(sorted, i + 1, st);
    }
  }

  /** The root pass starts from the state before linking with the invariant. */
  lemma InitialRootInv(t: Tables, sorted: seq<Event>)
    ensures RootInv(t, InitialNodes(sorted), sorted, 0, InitialState(sorted), [])
  {
    var st := InitialState(sorted);
    InitialInv(t, sorted);
    forall p | p in st.nodes ensures IsSubseq(st.nodes[p].children, Ids(SpanKids(t, st.nodes[p].event))) {
      assert st.nodes[p].children == [];
    }
    assert sorted[..0] == [];
  }

  /** The node is in the forest: a root, or somebody's child. */
  predicate Reached(f: Forest, k: string) {
    k in f.roots || IsChild(f.nodes, k)
  }

  /** The forest is what the processed set says: a node is reached exactly
      when the builder processed it. */
  lemma ReachedIsProcessed(t: Tables, nodes0: map<string, TraceNode>, sorted: seq<Event>, st: BuildState, roots: seq<string>)
    requires RootInv(t, nodes0, sorted, |sorted|, st, roots)
    ensures forall k :: Reached(Forest(roots, st.nodes), k) <==> k in st.processed
  {
    var f := Forest(roots, st.nodes);
    forall k ensures Reached(f, k) <==> k in st.processed {
      if k in roots {
        var j :| 0 <= j < |roots| && roots[j] == k;
      } else if IsChild(st.nodes, k) {
        var p :| p in st.nodes && k in st.nodes[p].children;
      }
    }
  }

  /** The structure of the forest at the end of the root pass. */
  lemma ForestShape(t: Tables, nodes0: map<string, TraceNode>, sorted: seq<Event>, st: BuildState, roots: seq<string>)
    requires RootInv(t, nodes0, sorted, |sorted|, st, roots)
    ensures NoDup(roots) && ChildOnce(st.nodes) && LevelsStep(st.nodes)
    ensures forall k :: k in roots ==> k in st.nodes && !IsChild(st.nodes, k) && st.nodes[k].level == 0
    ensures LastFlags(t, st.nodes) && RootFlags(sorted, st.nodes, roots)
  {
    forall k | k in roots ensures k in st.nodes && !IsChild(st.nodes, k) && st.nodes[k].level == 0 {
      var j :| 0 <= j < |roots| && roots[j] == k;
    }
  }

  /** The roots are the candidates the pass kept, in order, and no candidate
      is missing from the forest. */
  lemma ForestCandidates(t: Tables, nodes0: map<string, TraceNode>, sorted: seq<Event>, st: BuildState, roots: seq<string>)
    requires RootInv(t, nodes0, sorted, |sorted|, st, roots)
    ensures IsSubseq(roots, CandidateIds(nodes0, sorted))
    ensures forall e :: e in sorted && RootCandidate(nodes0, e) ==> Reached(Forest(roots, st.nodes), e.eventId)
  {
    assert sorted[..|sorted|] == sorted;
    ReachedIsProcessed(t, nodes0, sorted, st, roots);
    forall e | e in sorted && RootCandidate(nodes0, e) ensures e.eventId in st.processed {
      var j :| 0 <= j < |sorted| && sorted[j] == e;
    }
  }

  /** Children lists follow span lists, the forest is closed under span
      lists, and every node in it carries its network calls. */
  lemma ForestContents(t: Tables, nodes0: map<string, TraceNode>, sorted: seq<Event>, st: BuildState, roots: seq<string>)
    requires RootInv(t, nodes0, sorted, |sorted|, st, roots)
    ensures ChildrenInSpanOrder(t, st.nodes)
    ensures forall k :: k in st.nodes && Reached(Forest(roots, st.nodes), k) ==>
              forall c :: c in SpanKids(t, st.nodes[k].event) && c.eventId in st.nodes ==> Reached(Forest(roots, st.nodes), c.eventId)
    ensures forall k :: k in st.nodes && Reached(Forest(roots, st.nodes), k) ==>
              st.nodes[k].networkCalls == NetCallsFor(t, st.nodes[k].event)
  {
    ReachedIsProcessed(t, nodes0, sorted, st, roots);
    forall k | k in st.nodes && Reached(Forest(roots, st.nodes), k)
      ensures KidsDone(t, st, k) && st.nodes[k].networkCalls == NetCallsFor(t, st.nodes[k].event)
    {
    }
  }

  /** The event-id map of the sorted events: the nodes the forest is made of. */
  function SortedNodes(events: seq<Event>): map<string, TraceNode> {
    InitialNodes(TraceSort.SortEvents(events))
  }

  /** The two tables of the sorted events. */
  function SortedTables(events: seq<Event>): Tables {
    TablesOf(TraceSort.SortEvents(events))
  }

  /** The invariant at the end of the root pass of `buildHierarchicalTree`,
      and the forest it returns. */
  lemma TraceTreeInv(events: seq<Event>)
    ensures var sorted := TraceSort.SortEvents(events);
            var built := RootPass(SortedTables(events), sorted, 0, InitialState(sorted), []);
            RootInv(SortedTables(events), SortedNodes(events), sorted, |sorted|, built.state, built.roots) &&
            TraceTree(events) == Forest(built.roots, built.state.nodes)
  {
    var sorted := TraceSort.SortEvents(events);
    var t := TablesOf(sorted);
    var st0 := InitialState(sorted);
    EndLinkIdle(sorted, 0, st0);
    InitialRootInv(t, sorted);
    RootPassInv(t, InitialNodes(sorted), sorted, 0, st0, []);
  }

  /** The converse of the last flags on the forest of `buildHierarchicalTree`:
      a child that only the final entry of its parent's span list names, and
      a later root that only the final sorted event names, are flagged last. */
  lemma TraceTreeFlags(events: seq<Event>)
    ensures var f := TraceTree(events);
            LastKidFlagged(SortedTables(events), f.nodes) &&
            LaterRootsFlagged(TraceSort.SortEvents(events), f.nodes, f.roots)
  {
    var sorted := TraceSort.SortEvents(events);
    var t := SortedTables(events);
    var st0 := InitialState(sorted);
    EndLinkIdle(sorted, 0, st0);
    InitialFlags(t, sorted);
    RootPassFlags(t, sorted, 0, st0, []);
  }

  /** The forest of `buildHierarchicalTree`:
      - it has a node for every event id, holding the last event with it;
      - no id is listed twice among the roots and all the children lists;
      - the roots are at level 0 and nobody's children, and a child is one
        level below its parent;
      - the roots are root candidates, in sorted order, and every candidate
        is in the forest;
      - every children list comes from its node's span list, in that order,
        and the forest is closed under span lists;
      - every node in the forest carries the network calls of its tool-call
        id, or none;
      - a node outside the forest has no children, so every node in it
        hangs below a root;
      - a child flagged last is the final entry of its parent's span list,
        and, conversely, a child that only that final entry names is
        flagged; the first root is flagged last, a later root flagged last
        is the last sorted event, and, conversely, a later root that only
        the last sorted event names is flagged. */
  lemma TraceTreeShape(events: seq<Event>)
    ensures var f := TraceTree(events);
            f.nodes.Keys == SortedNodes(events).Keys &&
            (forall k :: k in f.nodes ==> f.nodes[k].event == SortedNodes(events)[k].event)
    ensures var f := TraceTree(events);
            NoDup(f.roots) && ChildOnce(f.nodes) && LevelsStep(f.nodes) &&
            (forall k :: k in f.roots ==> k in f.nodes && !IsChild(f.nodes, k) && f.nodes[k].level == 0)
    ensures var f := TraceTree(events); var sorted := TraceSort.SortEvents(events);
            IsSubseq(f.roots, CandidateIds(SortedNodes(events), sorted)) &&
            (forall e :: e in sorted && RootCandidate(SortedNodes(events), e) ==> Reached(f, e.eventId))
    ensures var f := TraceTree(events); var t := SortedTables(events);
            ChildrenInSpanOrder(t, f.nodes) &&
            (forall k :: k in f.nodes && Reached(f, k) ==>
               forall c :: c in SpanKids(t, f.nodes[k].event) && c.eventId in f.nodes ==> Reached(f, c.eventId)) &&
            (forall k :: k in f.nodes && Reached(f, k) ==> f.nodes[k].networkCalls == NetCallsFor(t, f.nodes[k].event))
    ensures var f := TraceTree(events);
            forall k :: k in f.nodes && !Reached(f, k) ==> f.nodes[k].children == []
    ensures var f := TraceTree(events);
            LastFlags(SortedTables(events), f.nodes) && RootFlags(TraceSort.SortEvents(events), f.nodes, f.roots)
    ensures var f := TraceTree(events);
            LastKidFlagged(SortedTables(events), f.nodes) &&
            LaterRootsFlagged(TraceSort.SortEvents(events), f.nodes, f.roots)
  {
    var sorted := TraceSort.SortEvents(events);
    var t := SortedTables(events);
    var nodes0 := SortedNodes(events);
    var built := RootPass(t, sorted, 0, InitialState(sorted), []);
    TraceTreeInv(events);
    ForestShape(t, nodes0, sorted, built.state, built.roots);
    ForestCandidates(t, nodes0, sorted, built.state, built.roots);
    ForestContents(t, nodes0, sorted, built.state, built.roots);
    ReachedIsProcessed(t, nodes0, sorted, built.state, built.roots);
    TraceTreeFlags(events);
  }
}
