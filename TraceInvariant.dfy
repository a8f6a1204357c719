/** The invariant of the trace builder's state, kept by `buildNodeTree` and
    its child loop: what every processed node looks like and how the
    children lists hang together. */
module TraceInvariant {
  import opened Types
  import opened TraceTables
  import opened TraceSpec
  import opened TraceFrame

  /** The id of the final entry of an event's span list, if it has one. */
  function LastKid(t: Tables, e: Event): Option<string> {
    var kids := SpanKids(t, e);
    if kids == [] then None else Some(kids[|kids| - 1].eventId)
  }

  /** `k` is pushed onto some node's children. */
  predicate IsChild(nodes: map<string, TraceNode>, k: string) {
    exists p :: p in nodes && k in nodes[p].children
  }

  /** A node not yet processed is as the second pass created it. */
  predicate FreshWhileUnprocessed(st: BuildState) {
    forall k :: k in st.nodes && k !in st.processed ==> st.nodes[k].children == [] && st.nodes[k].networkCalls == []
  }

  /** Only processed nodes are pushed as children. */
  predicate ChildrenProcessed(st: BuildState) {
    forall p, c :: p in st.nodes && c in st.nodes[p].children ==> c in st.processed
  }

  /** No id occupies two places among all the children lists. */
  predicate ChildOnce(nodes: map<string, TraceNode>) {
    forall p, q, i, j :: (p in nodes && q in nodes && 0 <= i < |nodes[p].children| && 0 <= j < |nodes[q].children| &&
                          nodes[p].children[i] == nodes[q].children[j]) ==> p == q && i == j
  }

  /** A child is one level below its parent. */
  predicate LevelsStep(nodes: map<string, TraceNode>) {
    forall p, c :: p in nodes && c in nodes[p].children ==> c in nodes && nodes[c].level == nodes[p].level + 1
  }

  /** A processed node carries the network-call group of its truthy
      tool-call id, or none. */
  predicate CallsAttached(t: Tables, st: BuildState) {
    forall k :: k in st.processed && k in st.nodes ==> st.nodes[k].networkCalls == NetCallsFor(t, st.nodes[k].event)
  }

  /** A child flagged last is the final entry of its parent's span list. */
  predicate LastFlags(t: Tables, nodes: map<string, TraceNode>) {
    forall p, c :: p in nodes && c in nodes[p].children && c in nodes && nodes[c].isLast ==> LastKid(t, nodes[p].event) == Some(c)
  }

  /** Registered tool-call starts are processed nodes. */
  predicate StartsRegistered(st: BuildState) {
    forall k :: k in st.toolCallMap ==> st.toolCallMap[k] in st.processed
  }

  predicate Inv(t: Tables, st: BuildState) {
    Sane(st) && FreshWhileUnprocessed(st) && ChildrenProcessed(st) && ChildOnce(st.nodes) && LevelsStep(st.nodes) &&
    CallsAttached(t, st) && LastFlags(t, st.nodes) && StartsRegistered(st)
  }

  /** Every entry of the node's span list that has a node is processed. */
  predicate KidsDone(t: Tables, st: BuildState, k: string) {
    k in st.nodes && forall c :: c in SpanKids(t, st.nodes[k].event) && c.eventId in st.nodes ==> c.eventId in st.processed
  }

  /** The state before linking satisfies the invariant. */
  lemma InitialInv(t: Tables, sorted: seq<Event>)
    ensures Inv(t, InitialState(sorted))
  {
  }

  /** `r` differs from `st` at most in the level, last flag and network
      calls of `id`, which nobody has as a child and which has no children,
      and processes at least as much. */
  predicate RetaggedOnly(st: BuildState, r: BuildState, id: string) {
    r.nodes.Keys == st.nodes.Keys && id in st.nodes && st.processed <= r.processed &&
    (forall k :: k in st.nodes && k != id ==> r.nodes[k] == st.nodes[k]) &&
    r.nodes[id].event == st.nodes[id].event && r.nodes[id].children == st.nodes[id].children == [] &&
    !IsChild(st.nodes, id)
  }

  lemma RetagKeepsChildrenProcessed(st: BuildState, r: BuildState, id: string)
    requires RetaggedOnly(st, r, id) && ChildrenProcessed(st)
    ensures ChildrenProcessed(r)
  {
    forall p, c | p in r.nodes && c in r.nodes[p].children ensures c in r.processed {
      assert c in st.nodes[p].children;
    }
  }

  lemma RetagKeepsChildOnce(st: BuildState, r: BuildState, id: string)
    requires RetaggedOnly(st, r, id) && ChildOnce(st.nodes)
    ensures ChildOnce(r.nodes)
  {
    assert forall p :: p in r.nodes ==> r.nodes[p].children == st.nodes[p].children;
  }

  lemma RetagKeepsLevels(st: BuildState, r: BuildState, id: string)
    requires RetaggedOnly(st, r, id) && LevelsStep(st.nodes)
    ensures LevelsStep(r.nodes)
  {
    forall p, c | p in r.nodes && c in r.nodes[p].children ensures c in r.nodes && r.nodes[c].level == r.nodes[p].level + 1 {
      assert p != id && c in st.nodes[p].children;
      assert c != id;
    }
  }

  lemma RetagKeepsLastFlags(t: Tables, st: BuildState, r: BuildState, id: string)
    requires RetaggedOnly(st, r, id) && LastFlags(t, st.nodes)
    ensures LastFlags(t, r.nodes)
  {
    forall p, c | p in r.nodes && c in r.nodes[p].children && c in r.nodes && r.nodes[c].isLast
      ensures LastKid(t, r.nodes[p].event) == Some(c)
    {
      assert p != id && c in st.nodes[p].children;
      assert c != id;
    }
  }

  /** A retagged state that processes `id` as well, with the network calls
      and starts `Mark` gives, keeps the invariant. */
  lemma RetagKeepsInv(t: Tables, st: BuildState, r: BuildState, id: string)
    requires Inv(t, st) && Sane(r) && RetaggedOnly(st, r, id) && r.processed == st.processed + {id}
    requires r.nodes[id].networkCalls == (if Truthy(st.nodes[id].event.data.toolCallId)
                                          then NetCallsFor(t, st.nodes[id].event) else st.nodes[id].networkCalls)
    requires forall k :: k in r.toolCallMap ==> r.toolCallMap[k] == id || (k in st.toolCallMap && r.toolCallMap[k] == st.toolCallMap[k])
    ensures Inv(t, r)
  {
    RetagKeepsChildrenProcessed(st, r, id);
    RetagKeepsChildOnce(st, r, id);
    RetagKeepsLevels(st, r, id);
    RetagKeepsLastFlags(t, st, r, id);
    RetagKeepsRest(t, st, r, id);
  }

  /** Marking an unprocessed node keeps the invariant and every children list. */
  lemma MarkKeepsInv(t: Tables, st: BuildState, id: string, level: int, isLast: bool)
    requires Inv(t, st) && id in st.nodes && id !in st.processed
    ensures Inv(t, Mark(t, st, id, level, isLast))
    ensures forall p :: p in st.nodes ==> Mark(t, st, id, level, isLast).nodes[p].children == st.nodes[p].children
  {
    var r := Mark(t, st, id, level, isLast);
    MarkFrame(t, st, id, level, isLast);
    assert !IsChild(st.nodes, id);
    assert RetaggedOnly(st, r, id);
    RetagKeepsInv(t, st, r, id);
    forall p | p in st.nodes ensures r.nodes[p].children == st.nodes[p].children {
      if p != id {
        assert r.nodes[p] == st.nodes[p];
      }
    }
  }

  lemma RetagKeepsRest(t: Tables, st: BuildState, r: BuildState, id: string)
    requires RetaggedOnly(st, r, id) && r.processed == st.processed + {id}
    requires FreshWhileUnprocessed(st) && CallsAttached(t, st) && StartsRegistered(st)
    requires r.nodes[id].networkCalls == (if Truthy(st.nodes[id].event.data.toolCallId)
                                          then NetCallsFor(t, st.nodes[id].event) else st.nodes[id].networkCalls)
    requires forall k :: k in r.toolCallMap ==> r.toolCallMap[k] == id || (k in st.toolCallMap && r.toolCallMap[k] == st.toolCallMap[k])
    ensures FreshWhileUnprocessed(r) && CallsAttached(t, r) && StartsRegistered(r)
  {
  }

  /** `r` is `st` with `c` appended to the children of `parent`. */
  predicate PushedOnly(st: BuildState, r: BuildState, parent: string, c: string) {
    r.nodes.Keys == st.nodes.Keys && parent in st.nodes && r.processed == st.processed && r.toolCallMap == st.toolCallMap &&
    (forall k :: k in st.nodes && k != parent ==> r.nodes[k] == st.nodes[k]) &&
    r.nodes[parent] == st.nodes[parent].(children := st.nodes[parent].children + [c])
  }

  lemma PushKeepsChildOnce(st: BuildState, r: BuildState, parent: string, c: string)
    requires PushedOnly(st, r, parent, c) && ChildOnce(st.nodes) && !IsChild(st.nodes, c)
    ensures ChildOnce(r.nodes)
  {
    forall p, q, i, j | p in r.nodes && q in r.nodes && 0 <= i < |r.nodes[p].children| && 0 <= j < |r.nodes[q].children| &&
                        r.nodes[p].children[i] == r.nodes[q].children[j]
      ensures p == q && i == j
    {
      var n := |st.nodes[parent].children|;
      var pOld := !(p == parent && i == n);
      var qOld := !(q == parent && j == n);
      if pOld {
        assert r.nodes[p].children[i] == st.nodes[p].children[i];
        assert st.nodes[p].children[i] in st.nodes[p].children;
      }
      if qOld {
        assert r.nodes[q].children[j] == st.nodes[q].children[j];
        assert st.nodes[q].children[j] in st.nodes[q].children;
      }
    }
  }

  lemma PushKeepsLevels(st: BuildState, r: BuildState, parent: string, c: string)
    requires PushedOnly(st, r, parent, c) && LevelsStep(st.nodes)
    requires c in st.nodes && st.nodes[c].level == st.nodes[parent].level + 1
    ensures LevelsStep(r.nodes)
  {
    forall p, k | p in r.nodes && k in r.nodes[p].children ensures k in r.nodes && r.nodes[k].level == r.nodes[p].level + 1 {
      if !(p == parent && k == c) {
        assert k in st.nodes[p].children;
      }
    }
  }

  lemma PushKeepsLastFlags(t: Tables, st: BuildState, r: BuildState, parent: string, c: string)
    requires PushedOnly(st, r, parent, c) && LastFlags(t, st.nodes)
    requires c in st.nodes && (st.nodes[c].isLast ==> LastKid(t, st.nodes[parent].event) == Some(c))
    ensures LastFlags(t, r.nodes)
  {
    forall p, k | p in r.nodes && k in r.nodes[p].children && k in r.nodes && r.nodes[k].isLast
      ensures LastKid(t, r.nodes[p].event) == Some(k)
    {
      if !(p == parent && k == c) {
        assert k in st.nodes[p].children;
      }
    }
  }

  lemma PushKeepsRest(t: Tables, st: BuildState, r: BuildState, parent: string, c: string)
    requires PushedOnly(st, r, parent, c) && parent in st.processed && c in st.processed
    requires Sane(st) && FreshWhileUnprocessed(st) && ChildrenProcessed(st) && CallsAttached(t, st) && StartsRegistered(st)
    ensures Sane(r) && FreshWhileUnprocessed(r) && ChildrenProcessed(r) && CallsAttached(t, r) && StartsRegistered(r)
  {
    forall p, k | p in r.nodes && k in r.nodes[p].children ensures k in r.processed {
      if !(p == parent && k == c) {
        assert k in st.nodes[p].children;
      }
    }
  }

  /** Pushing a processed node that is nobody's child yet, one level below
      the parent, keeps the invariant when it is flagged last only as the
      final span entry. */
  lemma PushKeepsInv(t: Tables, st: BuildState, parent: string, c: string)
    requires Inv(t, st) && parent in st.processed && c in st.processed && !IsChild(st.nodes, c)
    requires st.nodes[c].level == st.nodes[parent].level + 1
    requires st.nodes[c].isLast ==> LastKid(t, st.nodes[parent].event) == Some(c)
    ensures Inv(t, Push(st, parent, c))
  {
    var r := Push(st, parent, c);
    assert PushedOnly(st, r, parent, c);
    PushKeepsChildOnce(st, r, parent, c);
    PushKeepsLevels(st, r, parent, c);
    PushKeepsLastFlags(t, st, r, parent, c);
    PushKeepsRest(t, st, r, parent, c);
  }
}
