/** The converse of the last flags: `buildNodeTree` flags the child it
    builds from the final entry of the span list (`isLastChild = index ===
    childEvents.length - 1`), and the root pass flags a later root built
    from the final sorted event. When an id occurs more than once in the
    list, its node may have been built from an earlier entry, so the
    converse is stated for an id that only the final entry has. */
module TraceFlagProof {
  import opened Types
  import opened TraceTables
  import opened TraceSpec
  import opened TraceFrame
  import opened TraceInvariant

  /** `id` is the id of the final event of `s` and of no earlier one. */
  predicate OnlyLast(s: seq<Event>, id: string) {
    s != [] && s[|s| - 1].eventId == id && forall j :: 0 <= j < |s| - 1 ==> s[j].eventId != id
  }

  /** A child that only the final entry of its parent's span list names is
      flagged last. */
  predicate LastKidFlagged(t: Tables, nodes: map<string, TraceNode>) {
    forall p, c :: p in nodes && c in nodes[p].children && c in nodes && OnlyLast(SpanKids(t, nodes[p].event), c) ==>
      nodes[c].isLast
  }

  predicate FlagInv(t: Tables, st: BuildState) {
    Sane(st) && ChildrenProcessed(st) && LastKidFlagged(t, st.nodes)
  }

  /** Marking flags only an unprocessed node, which is nobody's child. */
  lemma MarkKeepsFlags(t: Tables, st: BuildState, id: string, level: int, isLast: bool)
    requires FlagInv(t, st) && id in st.nodes && id !in st.processed
    ensures FlagInv(t, Mark(t, st, id, level, isLast))
  {
    var r := Mark(t, st, id, level, isLast);
    MarkFrame(t, st, id, level, isLast);
    forall p | p in r.nodes ensures r.nodes[p].children == st.nodes[p].children && r.nodes[p].event == st.nodes[p].event {
      if p != id {
        assert r.nodes[p] == st.nodes[p];
      }
    }
    forall p, c | p in r.nodes && c in r.nodes[p].children && c in r.nodes && OnlyLast(SpanKids(t, r.nodes[p].event), c)
      ensures r.nodes[c].isLast
    {
      assert c in st.nodes[p].children;
      assert c != id;
    }
  }

  /** Pushing the entry at `i`, flagged exactly when it is the final entry,
      keeps the converse. */
  lemma PushKeepsFlags(t: Tables, st: BuildState, parent: string, kids: seq<Event>, i: nat)
    requires FlagInv(t, st) && parent in st.nodes && i < |kids| && kids == SpanKids(t, st.nodes[parent].event)
    requires kids[i].eventId in st.processed && kids[i].eventId in st.nodes
    requires st.nodes[kids[i].eventId].isLast == (i == |kids| - 1)
    ensures FlagInv(t, Push(st, parent, kids[i].eventId))
  {
    var c := kids[i].eventId;
    var r := Push(st, parent, c);
    PushFrame(st, parent, c);
    forall p | p in r.nodes ensures r.nodes[p].isLast == st.nodes[p].isLast && r.nodes[p].event == st.nodes[p].event {
      if p != parent {
        assert r.nodes[p] == st.nodes[p];
      }
    }
    forall p, k | p in r.nodes && k in r.nodes[p].children && k in r.nodes && OnlyLast(SpanKids(t, r.nodes[p].event), k)
      ensures r.nodes[k].isLast
    {
      if k !in st.nodes[p].children {
        assert p == parent && k == c;
      }
    }
    forall p, k | p in r.nodes && k in r.nodes[p].children ensures k in r.processed {
      if k !in st.nodes[p].children {
        assert k == c;
      }
    }
  }

  /** `buildNodeTree` keeps the converse. */
  lemma {:induction false} BuildNodeFlags(t: Tables, st: BuildState, id: string, level: int, isLast: bool)
    requires FlagInv(t, st) && id in st.nodes
    ensures FlagInv(t, BuildNode(t, st, id, level, isLast))
    decreases Unprocessed(st), 0, 0
  {
    if id !in st.processed {
      var st1 := Mark(t, st, id, level, isLast);
      var kids := SpanKids(t, st.nodes[id].event);
      assert BuildNode(t, st, id, level, isLast) == BuildChildren(t, st1, id, kids, 0, level);
      MarkKeepsFlags(t, st, id, level, isLast);
      MarkFrame(t, st, id, level, isLast);
      BuildChildrenFlags(t, st1, id, kids, 0, level);
    }
  }

  /** The child loop keeps the converse: the entry it builds at `i` gets
      the flag `i === childEvents.length - 1`, and keeps it once processed. */
  lemma {:induction false} BuildChildrenFlags(t: Tables, st: BuildState, parent: string, kids: seq<Event>, i: nat, level: int)
    requires FlagInv(t, st) && parent in st.processed && i <= |kids|
    requires kids == SpanKids(t, st.nodes[parent].event)
    ensures FlagInv(t, BuildChildren(t, st, parent, kids, i, level))
    decreases Unprocessed(st), 1, |kids| - i
  {
    if i < |kids| {
      var c := kids[i].eventId;
      if c in st.processed || c !in st.nodes {
        assert BuildChildren(t, st, parent, kids, i, level) == BuildChildren(t, st, parent, kids, i + 1, level);
        BuildChildrenFlags(t, st, parent, kids, i + 1, level);
      } else {
        var st2 := BuildNode(t, st, c, level + 1, i == |kids| - 1);
        var st3 := Push(st2, parent, c);
        GrowingShrinks(st, st3);
        assert BuildChildren(t, st, parent, kids, i, level) == BuildChildren(t, st3, parent, kids, i + 1, level);
        BuildNodeFlags(t, st, c, level + 1, i == |kids| - 1);
        BuildNodeFrame(t, st, c, level + 1, i == |kids| - 1);
        assert st2.nodes[parent] == st.nodes[parent];
        PushKeepsFlags(t, st2, parent, kids, i);
        PushFrame(st2, parent, c);
        BuildChildrenFlags(t, st3, parent, kids, i + 1, level);
      }
    }
  }

  /** A root after the first that only the final sorted event names is
      flagged last. */
  predicate LaterRootsFlagged(sorted: seq<Event>, nodes: map<string, TraceNode>, roots: seq<string>) {
    forall k :: 0 < k < |roots| && roots[k] in nodes && OnlyLast(sorted, roots[k]) ==> nodes[roots[k]].isLast
  }

  predicate RootFlagInv(t: Tables, sorted: seq<Event>, st: BuildState, roots: seq<string>) {
    FlagInv(t, st) && (forall k :: 0 <= k < |roots| ==> roots[k] in st.processed) &&
    LaterRootsFlagged(sorted, st.nodes, roots)
  }

  /** One step of the root pass keeps the converse: a root pushed at
      position `i` after the first is flagged exactly when `i` is the final
      position, and an earlier root, being processed, keeps its flag. */
  lemma RootStepFlags(t: Tables, sorted: seq<Event>, i: nat, st: BuildState, roots: seq<string>)
    requires RootFlagInv(t, sorted, st, roots) && i < |sorted|
    ensures var next := RootStep(t, sorted, i, st, roots);
            RootFlagInv(t, sorted, next.state, next.roots)
  {
    var id := sorted[i].eventId;
    if id !in st.processed && RootCandidate(st.nodes, sorted[i]) {
      var flag := |roots| == 0 || i == |sorted| - 1;
      var r := BuildNode(t, st, id, 0, flag);
      BuildNodeFlags(t, st, id, 0, flag);
      BuildNodeFrame(t, st, id, 0, flag);
      var rs := roots + [id];
      forall k | 0 <= k < |rs| ensures rs[k] in r.processed && (k < |roots| ==> r.nodes[rs[k]] == st.nodes[roots[k]]) {
        if k < |roots| {
          assert rs[k] == roots[k];
        }
      }
      forall k | 0 < k < |rs| && rs[k] in r.nodes && OnlyLast(sorted, rs[k]) ensures r.nodes[rs[k]].isLast {
        if k == |roots| {
          assert rs[k] == sorted[i].eventId;
        }
      }
    }
  }

  /** The root pass from position `i` keeps the converse. */
  lemma {:induction false} RootPassFlags(t: Tables, sorted: seq<Event>, i: nat, st: BuildState, roots: seq<string>)
    requires RootFlagInv(t, sorted, st, roots) && i <= |sorted|
    ensures var r := RootPass(t, sorted, i, st, roots);
            RootFlagInv(t, sorted, r.state, r.roots)
    decreases |sorted| - i
  {
    if i < |sorted| {
      var next := RootStep(t, sorted, i, st, roots);
      RootStepFlags(t, sorted, i, st, roots);
      RootPassFlags(t, sorted, i + 1, next.state, next.roots);
    }
  }

  /** The state before linking: no children, no roots. */
  lemma InitialFlags(t: Tables, sorted: seq<Event>)
    ensures RootFlagInv(t, sorted, InitialState(sorted), [])
  {
  }
}
