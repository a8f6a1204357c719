/** What the root pass achieves: the roots are distinct, at level 0 and
    nobody's children; every processed node is a root or a child and has all
    its span entries processed; every root candidate ends processed; and the
    roots are candidates, in sorted order. */
module TraceRootProof {
  import opened Types
  import opened TraceTables
  import opened TraceSpec
  import opened TraceFrame
  import opened TraceInvariant
  import opened TraceBuildProof
  import opened TraceOrderProof

  /** The ids of the root candidates of `s`, in order; `nodes0` is the
      event-id map, whose keys the passes never change. */
  function CandidateIds(nodes0: map<string, TraceNode>, s: seq<Event>): (r: seq<string>)
    ensures forall e :: e in s && RootCandidate(nodes0, e) ==> e.eventId in r
    decreases |s|
  {
    if s == [] then []
    else
      var front := s[..|s| - 1];
      var last := s[|s| - 1];
      assert s == front + [last];
      assert forall e :: e in s ==> e in front || e == last;
      CandidateIds(nodes0, front) + (if RootCandidate(nodes0, last) then [last.eventId] else [])
  }

  /** The roots are distinct processed nodes at level 0 that are nobody's
      children. */
  predicate RootsPlaced(st: BuildState, roots: seq<string>) {
    NoDup(roots) &&
    forall k :: 0 <= k < |roots| ==>
      roots[k] in st.processed && roots[k] in st.nodes && !IsChild(st.nodes, roots[k]) && st.nodes[roots[k]].level == 0
  }

  /** Every processed node is a root or somebody's child. */
  predicate Covered(st: BuildState, roots: seq<string>) {
    forall k :: k in st.processed ==> k in roots || IsChild(st.nodes, k)
  }

  /** Every processed node has all its span entries processed. */
  predicate AllKidsDone(t: Tables, st: BuildState) {
    forall k :: k in st.processed ==> KidsDone(t, st, k)
  }

  /** The first root is flagged last; any later root flagged last is the
      last sorted event. */
  predicate RootFlags(sorted: seq<Event>, nodes: map<string, TraceNode>, roots: seq<string>) {
    (|roots| > 0 && roots[0] in nodes ==> nodes[roots[0]].isLast) &&
    forall k :: 0 < k < |roots| && roots[k] in nodes && nodes[roots[k]].isLast ==>
      |sorted| > 0 && roots[k] == sorted[|sorted| - 1].eventId
  }

  /** Every root candidate before position `i` is processed. */
  predicate CandidatesDone(nodes0: map<string, TraceNode>, sorted: seq<Event>, i: nat, st: BuildState) {
    forall j :: 0 <= j < i && j < |sorted| && RootCandidate(nodes0, sorted[j]) ==> sorted[j].eventId in st.processed
  }

  /** The part of the root-pass invariant that does not depend on the
      position. */
  predicate RootState(t: Tables, sorted: seq<Event>, st: BuildState, roots: seq<string>) {
    Inv(t, st) && OrderInv(t, st) && RootsPlaced(st, roots) && Covered(st, roots) && AllKidsDone(t, st) &&
    RootFlags(sorted, st.nodes, roots)
  }

  /** What holds after the root pass has looked at the first `i` sorted
      events. */
  predicate RootInv(t: Tables, nodes0: map<string, TraceNode>, sorted: seq<Event>, i: nat, st: BuildState, roots: seq<string>) {
    i <= |sorted| && st.nodes.Keys == nodes0.Keys && (forall k :: k in st.nodes ==> st.nodes[k].event == nodes0[k].event) &&
    RootState(t, sorted, st, roots) && CandidatesDone(nodes0, sorted, i, st) &&
    IsSubseq(roots, CandidateIds(nodes0, sorted[..i]))
  }

  /** Building a new root: what the two invariants, the extension and the
      frame give, in one place. */
  lemma RootBuild(t: Tables, st: BuildState, id: string, isLast: bool)
    requires Inv(t, st) && OrderInv(t, st) && id in st.nodes && id !in st.processed
    ensures var r := BuildNode(t, st, id, 0, isLast);
            Inv(t, r) && OrderInv(t, r) && Extends(t, st, r, id) && id in r.processed &&
            r.nodes[id].level == 0 && r.nodes[id].isLast == isLast &&
            (forall k :: k in st.processed ==> r.nodes[k] == st.nodes[k])
  {
    BuildNodeInv(t, st, id, 0, isLast);
    BuildNodeOrder(t, st, id, 0, isLast);
    BuildNodeFrame(t, st, id, 0, isLast);
  }

  lemma RootsPlacedStep(st: BuildState, r: BuildState, roots: seq<string>, id: string)
    requires Sane(st) && RootsPlaced(st, roots) && id !in st.processed && !IsChild(st.nodes, id)
    requires NewChildrenNew(st, r, id) && st.processed <= r.processed && r.nodes.Keys == st.nodes.Keys
    requires id in r.processed && id in r.nodes && r.nodes[id].level == 0
    requires forall k :: k in st.processed ==> r.nodes[k] == st.nodes[k]
    ensures RootsPlaced(r, roots + [id])
  {
    var rs := roots + [id];
    forall k | 0 <= k < |rs| ensures rs[k] in r.processed && rs[k] in r.nodes && !IsChild(r.nodes, rs[k]) && r.nodes[rs[k]].level == 0 {
      if k < |roots| {
        assert rs[k] == roots[k];
      }
    }
    forall a, b | 0 <= a < b < |rs| ensures rs[a] != rs[b] {
      if b < |roots| {
        assert rs[a] == roots[a] && rs[b] == roots[b];
      } else {
        assert rs[a] == roots[a];
      }
    }
  }

  lemma CoveredStep(st: BuildState, r: BuildState, roots: seq<string>, id: string)
    requires Covered(st, roots) && NewAreChildren(st, r, id) && SameEvents(st, r) && ChildrenGrow(st, r)
    ensures Covered(r, roots + [id])
  {
    forall k | k in r.processed ensures k in roots + [id] || IsChild(r.nodes, k) {
      if k in st.processed && k !in roots {
        IsChildGrows(st, r, k);
      }
    }
  }

  lemma KidsDoneStep(t: Tables, st: BuildState, r: BuildState)
    requires AllKidsDone(t, st) && NewKidsDone(t, st, r) && SameEvents(st, r) && st.processed <= r.processed
    ensures AllKidsDone(t, r)
  {
    forall k | k in r.processed ensures KidsDone(t, r, k) {
      if k in st.processed {
        KidsDoneGrows(t, st, r, k);
      }
    }
  }

  lemma RootFlagsStep(sorted: seq<Event>, i: nat, st: BuildState, r: BuildState, roots: seq<string>)
    requires i < |sorted| && Sane(st) && RootFlags(sorted, st.nodes, roots) && r.nodes.Keys == st.nodes.Keys
    requires forall k :: 0 <= k < |roots| ==> roots[k] in st.processed && roots[k] in st.nodes
    requires forall k :: k in st.processed ==> r.nodes[k] == st.nodes[k]
    requires sorted[i].eventId in r.nodes
    requires r.nodes[sorted[i].eventId].isLast == (|roots| == 0 || i == |sorted| - 1)
    ensures RootFlags(sorted, r.nodes, roots + [sorted[i].eventId])
  {
    var rs := roots + [sorted[i].eventId];
    forall k | 0 <= k < |roots| ensures rs[k] == roots[k] && r.nodes[rs[k]] == st.nodes[roots[k]] {
    }
  }

  lemma CandidatesStep(nodes0: map<string, TraceNode>, sorted: seq<Event>, i: nat, st: BuildState, r: BuildState)
    requires i < |sorted| && CandidatesDone(nodes0, sorted, i, st) && st.processed <= r.processed
    requires RootCandidate(nodes0, sorted[i]) ==> sorted[i].eventId in r.processed
    ensures CandidatesDone(nodes0, sorted, i + 1, r)
  {
  }

  lemma CandidateIdsStep(nodes0: map<string, TraceNode>, sorted: seq<Event>, i: nat)
    requires i < |sorted|
    ensures CandidateIds(nodes0, sorted[..i + 1]) ==
            CandidateIds(nodes0, sorted[..i]) + (if RootCandidate(nodes0, sorted[i]) then [sorted[i].eventId] else [])
  {
    assert sorted[..i + 1][..i] == sorted[..i];
  }

  /** Building an unprocessed candidate as a new root keeps the
      position-free part of the invariant. */
  lemma RootStatePush(t: Tables, sorted: seq<Event>, i: nat, st: BuildState, roots: seq<string>)
    requires RootState(t, sorted, st, roots) && i < |sorted|
    requires sorted[i].eventId !in st.processed && RootCandidate(st.nodes, sorted[i])
    ensures var r := BuildNode(t, st, sorted[i].eventId, 0, |roots| == 0 || i == |sorted| - 1);
            RootState(t, sorted, r, roots + [sorted[i].eventId]) && sorted[i].eventId in r.processed &&
            SameEvents(st, r)
  {
    var id := sorted[i].eventId;
    var isLast := |roots| == 0 || i == |sorted| - 1;
    var r := BuildNode(t, st, id, 0, isLast);
    RootBuild(t, st, id, isLast);
    assert !IsChild(st.nodes, id);
    RootsPlacedStep(st, r, roots, id);
    CoveredStep(st, r, roots, id);
    KidsDoneStep(t, st, r);
    RootFlagsStep(sorted, i, st, r, roots);
  }

  /** The step on an unprocessed root candidate keeps the invariant. */
  lemma RootPushStep(t: Tables, nodes0: map<string, TraceNode>, sorted: seq<Event>, i: nat, st: BuildState, roots: seq<string>)
    requires RootInv(t, nodes0, sorted, i, st, roots) && i < |sorted|
    requires sorted[i].eventId !in st.processed && RootCandidate(st.nodes, sorted[i])
    ensures var r := BuildNode(t, st, sorted[i].eventId, 0, |roots| == 0 || i == |sorted| - 1);
            RootInv(t, nodes0, sorted, i + 1, r, roots + [sorted[i].eventId])
  {
    var id := sorted[i].eventId;
    var r := BuildNode(t, st, id, 0, |roots| == 0 || i == |sorted| - 1);
    RootStatePush(t, sorted, i, st, roots);
    assert RootCandidate(nodes0, sorted[i]);
    CandidatesStep(nodes0, sorted, i, st, r);
    CandidateIdsStep(nodes0, sorted, i);
    SubseqExtend(roots, CandidateIds(nodes0, sorted[..i]), id);
  }

  /** The step on any other event changes nothing and keeps the invariant. */
  lemma RootSkipStep(t: Tables, nodes0: map<string, TraceNode>, sorted: seq<Event>, i: nat, st: BuildState, roots: seq<string>)
    requires RootInv(t, nodes0, sorted, i, st, roots) && i < |sorted|
    requires sorted[i].eventId in st.processed || !RootCandidate(st.nodes, sorted[i])
    ensures RootInv(t, nodes0, sorted, i + 1, st, roots)
  {
    CandidatesStep(nodes0, sorted, i, st, st);
    CandidateIdsStep(nodes0, sorted, i);
    var before := CandidateIds(nodes0, sorted[..i]);
    if RootCandidate(nodes0, sorted[i]) {
      SubseqExtend(roots, before, sorted[i].eventId);
    } else {
      assert before + [] == before;
    }
  }

  lemma RootStepInv(t: Tables, nodes0: map<string, TraceNode>, sorted: seq<Event>, i: nat, st: BuildState, roots: seq<string>)
    requires RootInv(t, nodes0, sorted, i, st, roots) && i < |sorted|
    ensures var next := RootStep(t, sorted, i, st, roots);
            RootInv(t, nodes0, sorted, i + 1, next.state, next.roots)
  {
    if sorted[i].eventId !in st.processed && RootCandidate(st.nodes, sorted[i]) {
      RootPushStep(t, nodes0, sorted, i, st, roots);
    } else {
      RootSkipStep(t, nodes0, sorted, i, st, roots);
    }
  }

  /** The root pass from position `i` keeps the invariant to the end. */
  lemma {:induction false} RootPassInv(t: Tables, nodes0: map<string, TraceNode>, sorted: seq<Event>, i: nat, st: BuildState, roots: seq<string>)
    requires RootInv(t, nodes0, sorted, i, st, roots)
    ensures var r := RootPass(t, sorted, i, st, roots);
            RootInv(t, nodes0, sorted, |sorted|, r.state, r.roots)
    decreases |sorted| - i
  {
    if i < |sorted| {
      var next := RootStep(t, sorted, i, st, roots);
      RootStepInv(t, nodes0, sorted, i, st, roots);
      RootPassInv(t, nodes0, sorted, i + 1, next.state, next.roots);
    }
  }
}
