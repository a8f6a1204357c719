/** What one call of `buildNodeTree` or one run of its child loop leaves
    alone: every node it does not newly process (except the parent whose
    children it pushes), and every node's event. */
module TraceFrame {
  import opened Types
  import opened TraceTables
  import opened TraceSpec

  /** Nodes outside `changed` are as they were; every node keeps its event. */
  predicate FramedBy(st: BuildState, r: BuildState, changed: set<string>) {
    r.nodes.Keys == st.nodes.Keys &&
    (forall k :: k in st.nodes && k !in changed ==> r.nodes[k] == st.nodes[k]) &&
    (forall k :: k in st.nodes ==> r.nodes[k].event == st.nodes[k].event)
  }

  /** Two framed steps make a step framed by the union of their changes. */
  lemma FrameCompose(a: BuildState, b: BuildState, c: BuildState, ab: set<string>, bc: set<string>, ac: set<string>)
    requires FramedBy(a, b, ab) && FramedBy(b, c, bc) && ab + bc <= ac
    ensures FramedBy(a, c, ac)
  {
  }

  /** Marking changes only the marked node, and sets its level, last flag
      and network calls. */
  lemma MarkFrame(t: Tables, st: BuildState, id: string, level: int, isLast: bool)
    requires Sane(st) && id in st.nodes && id !in st.processed
    ensures var r := Mark(t, st, id, level, isLast);
            FramedBy(st, r, {id}) &&
            r.nodes[id].children == st.nodes[id].children &&
            r.nodes[id].level == level && r.nodes[id].isLast == isLast &&
            r.nodes[id].networkCalls == (if Truthy(st.nodes[id].event.data.toolCallId)
                                         then NetCallsFor(t, st.nodes[id].event) else st.nodes[id].networkCalls)
    ensures var r := Mark(t, st, id, level, isLast);
            forall k :: k in r.toolCallMap ==> r.toolCallMap[k] == id || (k in st.toolCallMap && r.toolCallMap[k] == st.toolCallMap[k])
  {
  }

  /** Pushing changes only the parent, and only its children. */
  lemma PushFrame(st: BuildState, parent: string, c: string)
    requires parent in st.nodes
    ensures var r := Push(st, parent, c);
            FramedBy(st, r, {parent}) &&
            r.nodes[parent] == st.nodes[parent].(children := st.nodes[parent].children + [c])
  {
  }

  /** One pushed child: the frames of building it, pushing it and the rest
      of the loop combine. */
  lemma ChildStepFrame(st: BuildState, st2: BuildState, st3: BuildState, r: BuildState, parent: string, c: string)
    requires parent in st.nodes && st.processed <= st2.processed && st2.processed <= r.processed
    requires FramedBy(st, st2, st2.processed - st.processed)
    requires FramedBy(st2, st3, {parent}) && st3.processed == st2.processed
    requires st3.nodes[parent] == st2.nodes[parent].(children := st2.nodes[parent].children + [c])
    requires FramedBy(st3, r, (r.processed - st3.processed) + {parent})
    requires parent in st3.processed ==>
               r.nodes[parent] == st3.nodes[parent].(children := r.nodes[parent].children) &&
               st3.nodes[parent].children <= r.nodes[parent].children
    ensures FramedBy(st, r, (r.processed - st.processed) + {parent})
    ensures parent in st.processed ==>
              r.nodes[parent] == st.nodes[parent].(children := r.nodes[parent].children) &&
              st.nodes[parent].children <= r.nodes[parent].children
  {
    FrameCompose(st, st2, st3, st2.processed - st.processed, {parent}, (st2.processed - st.processed) + {parent});
    FrameCompose(st, st3, r, (st2.processed - st.processed) + {parent}, (r.processed - st3.processed) + {parent},
                 (r.processed - st.processed) + {parent});
    if parent in st.processed {
      assert st2.nodes[parent] == st.nodes[parent];
    }
  }

  /** A built node: the frames of marking it and of its child loop combine. */
  lemma NodeStepFrame(st: BuildState, st1: BuildState, r: BuildState, id: string)
    requires id in st.nodes && id !in st.processed && st1.processed == st.processed + {id} && st1.processed <= r.processed
    requires FramedBy(st, st1, {id}) && FramedBy(st1, r, (r.processed - st1.processed) + {id})
    requires r.nodes[id] == st1.nodes[id].(children := r.nodes[id].children)
    ensures FramedBy(st, r, r.processed - st.processed)
  {
    FrameCompose(st, st1, r, {id}, (r.processed - st1.processed) + {id}, r.processed - st.processed);
  }

  /** `buildNodeTree` on a processed node does nothing; on an unprocessed one
      it changes only the nodes it newly processes, and the node itself gets
      the level, the last flag and the network calls it was given. */
  lemma {:induction false} BuildNodeFrame(t: Tables, st: BuildState, id: string, level: int, isLast: bool)
    requires Sane(st) && id in st.nodes
    ensures id in st.processed ==> BuildNode(t, st, id, level, isLast) == st
    ensures var r := BuildNode(t, st, id, level, isLast);
            FramedBy(st, r, r.processed - st.processed)
    ensures var r := BuildNode(t, st, id, level, isLast);
            id !in st.processed ==>
              r.nodes[id].level == level && r.nodes[id].isLast == isLast &&
              r.nodes[id].networkCalls == (if Truthy(st.nodes[id].event.data.toolCallId)
                                           then NetCallsFor(t, st.nodes[id].event) else st.nodes[id].networkCalls)
    decreases Unprocessed(st), 0, 0
  {
    if id !in st.processed {
      var st1 := Mark(t, st, id, level, isLast);
      var kids := SpanKids(t, st.nodes[id].event);
      var r := BuildChildren(t, st1, id, kids, 0, level);
      assert BuildNode(t, st, id, level, isLast) == r;
      MarkFrame(t, st, id, level, isLast);
      BuildChildrenFrame(t, st1, id, kids, 0, level);
      NodeStepFrame(st, st1, r, id);
    } else {
      assert BuildNode(t, st, id, level, isLast) == st;
      assert FramedBy(st, st, {});
    }
  }

  /** The child loop changes only the nodes it newly processes and the
      parent; a processed parent changes only by children appended to its
      list. */
  lemma {:induction false} BuildChildrenFrame(t: Tables, st: BuildState, parent: string, kids: seq<Event>, i: nat, level: int)
    requires Sane(st) && parent in st.nodes && i <= |kids|
    ensures var r := BuildChildren(t, st, parent, kids, i, level);
            FramedBy(st, r, (r.processed - st.processed) + {parent})
    ensures var r := BuildChildren(t, st, parent, kids, i, level);
            parent in st.processed ==>
              r.nodes[parent] == st.nodes[parent].(children := r.nodes[parent].children) &&
              st.nodes[parent].children <= r.nodes[parent].children
    decreases Unprocessed(st), 1, |kids| - i
  {
    if i < |kids| {
      var c := kids[i].eventId;
      if c in st.processed || c !in st.nodes {
        assert BuildChildren(t, st, parent, kids, i, level) == BuildChildren(t, st, parent, kids, i + 1, level);
        BuildChildrenFrame(t, st, parent, kids, i + 1, level);
      } else {
        var st2 := BuildNode(t, st, c, level + 1, i == |kids| - 1);
        var st3 := Push(st2, parent, c);
        GrowingShrinks(st, st3);
        var r := BuildChildren(t, st3, parent, kids, i + 1, level);
        assert BuildChildren(t, st, parent, kids, i, level) == r;
        BuildNodeFrame(t, st, c, level + 1, i == |kids| - 1);
        PushFrame(st2, parent, c);
        BuildChildrenFrame(t, st3, parent, kids, i + 1, level);
        ChildStepFrame(st, st2, st3, r, parent, c);
      }
    }
  }
}
