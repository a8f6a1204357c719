/** The order of every children list: `buildNodeTree` pushes a node's
    children while it walks the node's span list, so each list is a
    subsequence of the ids of that span list. */
module TraceOrderProof {
  import opened Types
  import opened TraceTables
  import opened TraceSpec
  import opened TraceFrame
  import opened TraceInvariant

  /** The event ids of a list of events, in order. */
  function Ids(s: seq<Event>): (r: seq<string>)
    ensures |r| == |s| && forall j :: 0 <= j < |s| ==> r[j] == s[j].eventId
    decreases |s|
  {
    if s == [] then [] else Ids(s[..|s| - 1]) + [s[|s| - 1].eventId]
  }

  /** A node's children come from its span list, in span-list order. */
  predicate ChildrenInSpanOrder(t: Tables, nodes: map<string, TraceNode>) {
    forall p :: p in nodes ==> IsSubseq(nodes[p].children, Ids(SpanKids(t, nodes[p].event)))
  }

  predicate OrderInv(t: Tables, st: BuildState) {
    Sane(st) && FreshWhileUnprocessed(st) && ChildrenInSpanOrder(t, st.nodes)
  }

  /** Marking keeps the order: it changes no children list. */
  lemma MarkKeepsOrder(t: Tables, st: BuildState, id: string, level: int, isLast: bool)
    requires OrderInv(t, st) && id in st.nodes && id !in st.processed
    ensures OrderInv(t, Mark(t, st, id, level, isLast))
  {
    var r := Mark(t, st, id, level, isLast);
    MarkFrame(t, st, id, level, isLast);
    forall p | p in r.nodes ensures IsSubseq(r.nodes[p].children, Ids(SpanKids(t, r.nodes[p].event))) {
      if p != id {
        assert r.nodes[p] == st.nodes[p];
      }
    }
  }

  /** Pushing the next built entry of a processed parent's span list keeps
      the order when the parent's children were a subsequence of the entries
      before it. */
  lemma PushKeepsOrder(t: Tables, st: BuildState, parent: string, kids: seq<Event>, i: nat)
    requires OrderInv(t, st) && parent in st.processed && i < |kids|
    requires kids == SpanKids(t, st.nodes[parent].event)
    requires IsSubseq(st.nodes[parent].children, Ids(kids)[..i])
    ensures var r := Push(st, parent, kids[i].eventId);
            OrderInv(t, r) && IsSubseq(r.nodes[parent].children, Ids(kids)[..i + 1])
  {
    var c := kids[i].eventId;
    var r := Push(st, parent, c);
    PushFrame(st, parent, c);
    ParentStaysOrdered(st.nodes[parent].children, kids, i);
    PushOthersOrdered(t, st, r, parent);
  }

  /** The parent's list with the entry at `i` appended is a subsequence of
      the entries up to `i`, and so of the whole span list. */
  lemma ParentStaysOrdered(children: seq<string>, kids: seq<Event>, i: nat)
    requires i < |kids| && IsSubseq(children, Ids(kids)[..i])
    ensures IsSubseq(children + [kids[i].eventId], Ids(kids)[..i + 1])
    ensures IsSubseq(children + [kids[i].eventId], Ids(kids))
  {
    SubseqPrefixStep(children, Ids(kids), i);
    SubseqOfPrefix(children + [kids[i].eventId], Ids(kids), i + 1);
  }

  lemma PushOthersOrdered(t: Tables, st: BuildState, r: BuildState, parent: string)
    requires FramedBy(st, r, {parent}) && ChildrenInSpanOrder(t, st.nodes) && parent in r.nodes
    requires IsSubseq(r.nodes[parent].children, Ids(SpanKids(t, r.nodes[parent].event)))
    ensures ChildrenInSpanOrder(t, r.nodes)
  {
    forall p | p in r.nodes ensures IsSubseq(r.nodes[p].children, Ids(SpanKids(t, r.nodes[p].event))) {
      if p != parent {
        assert r.nodes[p] == st.nodes[p];
      }
    }
  }

  /** `buildNodeTree` keeps every children list in span-list order. */
  lemma {:induction false} BuildNodeOrder(t: Tables, st: BuildState, id: string, level: int, isLast: bool)
    requires OrderInv(t, st) && id in st.nodes
    ensures OrderInv(t, BuildNode(t, st, id, level, isLast))
    decreases Unprocessed(st), 0, 0
  {
    if id !in st.processed {
      var st1 := Mark(t, st, id, level, isLast);
      var kids := SpanKids(t, st.nodes[id].event);
      assert BuildNode(t, st, id, level, isLast) == BuildChildren(t, st1, id, kids, 0, level);
      MarkKeepsOrder(t, st, id, level, isLast);
      MarkFrame(t, st, id, level, isLast);
      assert st1.nodes[id].children == [];
      BuildChildrenOrder(t, st1, id, kids, 0, level);
    }
  }

  /** The child loop keeps every children list in span-list order, the
      parent's list growing along its span list. */
  lemma {:induction false} BuildChildrenOrder(t: Tables, st: BuildState, parent: string, kids: seq<Event>, i: nat, level: int)
    requires OrderInv(t, st) && parent in st.processed && i <= |kids|
    requires kids == SpanKids(t, st.nodes[parent].event)
    requires IsSubseq(st.nodes[parent].children, Ids(kids)[..i])
    ensures OrderInv(t, BuildChildren(t, st, parent, kids, i, level))
    decreases Unprocessed(st), 1, |kids| - i
  {
    if i < |kids| {
      var c := kids[i].eventId;
      if c in st.processed || c !in st.nodes {
        assert BuildChildren(t, st, parent, kids, i, level) == BuildChildren(t, st, parent, kids, i + 1, level);
        SubseqPrefixStep(st.nodes[parent].children, Ids(kids), i);
        BuildChildrenOrder(t, st, parent, kids, i + 1, level);
      } else {
        var st2 := BuildNode(t, st, c, level + 1, i == |kids| - 1);
        var st3 := Push(st2, parent, c);
        GrowingShrinks(st, st3);
        assert BuildChildren(t, st, parent, kids, i, level) == BuildChildren(t, st3, parent, kids, i + 1, level);
        BuildNodeOrder(t, st, c, level + 1, i == |kids| - 1);
        BuildNodeFrame(t, st, c, level + 1, i == |kids| - 1);
        assert st2.nodes[parent] == st.nodes[parent];
        PushKeepsOrder(t, st2, parent, kids, i);
        BuildChildrenOrder(t, st3, parent, kids, i + 1, level);
      }
    }
  }
}
