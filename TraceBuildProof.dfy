/** What `buildNodeTree` and its child loop achieve from a state that keeps
    the invariant: the invariant again, and a record of how the new state
    extends the old one (every newly processed node but the top one is now
    somebody's child, and all its span entries are processed). */
module TraceBuildProof {
  import opened Types
  import opened TraceTables
  import opened TraceSpec
  import opened TraceFrame
  import opened TraceInvariant

  /** The same node keys, each with the same event. */
  predicate SameEvents(st: BuildState, r: BuildState) {
    r.nodes.Keys == st.nodes.Keys && forall k :: k in st.nodes ==> r.nodes[k].event == st.nodes[k].event
  }

  /** Children lists only grow at their ends. */
  predicate ChildrenGrow(st: BuildState, r: BuildState) {
    forall p :: p in st.nodes && p in r.nodes ==> st.nodes[p].children <= r.nodes[p].children
  }

  /** Every id that became a child is newly processed, and is not `top`. */
  ghost predicate NewChildrenNew(st: BuildState, r: BuildState, top: string) {
    forall y :: IsChild(r.nodes, y) ==> IsChild(st.nodes, y) || (y in r.processed && y !in st.processed && y != top)
  }

  /** Every newly processed id except `top` became a child. */
  predicate NewAreChildren(st: BuildState, r: BuildState, top: string) {
    forall k :: k in r.processed && k !in st.processed && k != top ==> IsChild(r.nodes, k)
  }

  /** Every newly processed node has all its span entries processed. */
  predicate NewKidsDone(t: Tables, st: BuildState, r: BuildState) {
    forall k :: k in r.processed && k !in st.processed ==> KidsDone(t, r, k)
  }

  ghost predicate Extends(t: Tables, st: BuildState, r: BuildState, top: string) {
    SameEvents(st, r) && st.processed <= r.processed && ChildrenGrow(st, r) &&
    NewChildrenNew(st, r, top) && NewAreChildren(st, r, top) && NewKidsDone(t, st, r)
  }

  lemma ExtendsRefl(t: Tables, st: BuildState, top: string)
    ensures Extends(t, st, st, top)
  {
  }

  lemma PrefixMember<T>(a: seq<T>, b: seq<T>, x: T)
    requires a <= b && x in a
    ensures x in b
  {
    var i :| 0 <= i < |a| && a[i] == x;
    assert b[i] == x;
  }

  /** A child stays a child when children lists only grow. */
  lemma IsChildGrows(st: BuildState, r: BuildState, y: string)
    requires SameEvents(st, r) && ChildrenGrow(st, r) && IsChild(st.nodes, y)
    ensures IsChild(r.nodes, y)
  {
    var p :| p in st.nodes && y in st.nodes[p].children;
    PrefixMember(st.nodes[p].children, r.nodes[p].children, y);
  }

  lemma KidsDoneGrows(t: Tables, st: BuildState, r: BuildState, k: string)
    requires SameEvents(st, r) && st.processed <= r.processed && KidsDone(t, st, k)
    ensures KidsDone(t, r, k)
  {
  }

  /** `buildNodeTree` on an unprocessed node: marking it, then the child
      loop extending the marked state, extends the original state once every
      span entry of the node is processed. */
  lemma NodeStepExtends(t: Tables, st: BuildState, st1: BuildState, r: BuildState, id: string)
    requires id in st.nodes && id !in st.processed
    requires SameEvents(st, st1) && st1.processed == st.processed + {id}
    requires forall p :: p in st.nodes ==> st1.nodes[p].children == st.nodes[p].children
    requires Extends(t, st1, r, id)
    requires DoneFrom(SpanKids(t, st.nodes[id].event), 0, r)
    ensures Extends(t, st, r, id)
  {
    DoneFromAll(SpanKids(t, st.nodes[id].event), 0, r);
    forall y | IsChild(st1.nodes, y) ensures IsChild(st.nodes, y) {
      var p :| p in st1.nodes && y in st1.nodes[p].children;
      assert y in st.nodes[p].children;
    }
    forall p | p in st.nodes && p in r.nodes ensures st.nodes[p].children <= r.nodes[p].children {
      assert st1.nodes[p].children <= r.nodes[p].children;
    }
    var kids := SpanKids(t, st.nodes[id].event);
    forall c | c in SpanKids(t, r.nodes[id].event) && c.eventId in r.nodes ensures c.eventId in r.processed {
      var j :| 0 <= j < |kids| && kids[j] == c;
    }
    assert KidsDone(t, r, id);
  }

  lemma PrefixTrans<T>(a: seq<T>, b: seq<T>, c: seq<T>)
    requires a <= b && b <= c
    ensures a <= c
  {
    assert c[..|a|] == b[..|a|];
  }

  lemma GrowTrans(a: BuildState, b: BuildState, c: BuildState)
    requires SameEvents(a, b) && SameEvents(b, c) && ChildrenGrow(a, b) && ChildrenGrow(b, c)
    ensures SameEvents(a, c) && ChildrenGrow(a, c)
  {
    forall p | p in a.nodes && p in c.nodes ensures a.nodes[p].children <= c.nodes[p].children {
      PrefixTrans(a.nodes[p].children, b.nodes[p].children, c.nodes[p].children);
    }
  }

  lemma PushNewChildren(st: BuildState, st2: BuildState, st3: BuildState, parent: string, c: string)
    requires parent in st.processed && c !in st.processed && c in st2.processed && st.processed <= st2.processed
    requires NewChildrenNew(st, st2, c) && PushedOnly(st2, st3, parent, c)
    ensures NewChildrenNew(st, st3, parent)
  {
    forall y | IsChild(st3.nodes, y) ensures IsChild(st.nodes, y) || (y in st3.processed && y !in st.processed && y != parent) {
      var p :| p in st3.nodes && y in st3.nodes[p].children;
      if y != c {
        assert y in st2.nodes[p].children;
        assert IsChild(st2.nodes, y);
      }
    }
  }

  lemma PushAreChildren(st: BuildState, st2: BuildState, st3: BuildState, parent: string, c: string)
    requires NewAreChildren(st, st2, c) && PushedOnly(st2, st3, parent, c)
    requires SameEvents(st2, st3) && ChildrenGrow(st2, st3)
    ensures NewAreChildren(st, st3, parent)
  {
    assert IsChild(st3.nodes, c) by {
      assert c in st3.nodes[parent].children;
    }
    forall k | k in st3.processed && k !in st.processed && k != parent ensures IsChild(st3.nodes, k) {
      if k != c {
        IsChildGrows(st2, st3, k);
      }
    }
  }

  /** Building an entry and pushing it onto the parent extends the state
      before it, the parent being the top. */
  lemma PushExtends(t: Tables, st: BuildState, st2: BuildState, st3: BuildState, parent: string, c: string)
    requires parent in st.processed && c !in st.processed && c in st2.processed
    requires Extends(t, st, st2, c) && PushedOnly(st2, st3, parent, c)
    ensures Extends(t, st, st3, parent)
  {
    assert SameEvents(st2, st3) && ChildrenGrow(st2, st3);
    GrowTrans(st, st2, st3);
    PushNewChildren(st, st2, st3, parent, c);
    PushAreChildren(st, st2, st3, parent, c);
    forall k | k in st3.processed && k !in st.processed ensures KidsDone(t, st3, k) {
      KidsDoneGrows(t, st2, st3, k);
    }
  }

  lemma TransNewChildren(a: BuildState, b: BuildState, c: BuildState, top: string)
    requires a.processed <= b.processed <= c.processed
    requires NewChildrenNew(a, b, top) && NewChildrenNew(b, c, top)
    ensures NewChildrenNew(a, c, top)
  {
  }

  lemma TransAreChildren(a: BuildState, b: BuildState, c: BuildState, top: string)
    requires SameEvents(b, c) && ChildrenGrow(b, c)
    requires NewAreChildren(a, b, top) && NewAreChildren(b, c, top)
    ensures NewAreChildren(a, c, top)
  {
    forall k | k in c.processed && k !in a.processed && k != top ensures IsChild(c.nodes, k) {
      if k in b.processed {
        IsChildGrows(b, c, k);
      }
    }
  }

  lemma TransKidsDone(t: Tables, a: BuildState, b: BuildState, c: BuildState)
    requires SameEvents(b, c) && b.processed <= c.processed
    requires NewKidsDone(t, a, b) && NewKidsDone(t, b, c)
    ensures NewKidsDone(t, a, c)
  {
    forall k | k in c.processed && k !in a.processed ensures KidsDone(t, c, k) {
      if k in b.processed {
        KidsDoneGrows(t, b, c, k);
      }
    }
  }

  /** Two extensions with the same top, an old node, make one. */
  lemma ExtendsTrans(t: Tables, a: BuildState, b: BuildState, c: BuildState, top: string)
    requires Extends(t, a, b, top) && Extends(t, b, c, top)
    ensures Extends(t, a, c, top)
  {
    GrowTrans(a, b, c);
    TransNewChildren(a, b, c, top);
    TransAreChildren(a, b, c, top);
    TransKidsDone(t, a, b, c);
  }

  /** `buildNodeTree` keeps the invariant and extends the state, with the
      node itself as the one new node that need not be a child. */
  lemma {:induction false} BuildNodeInv(t: Tables, st: BuildState, id: string, level: int, isLast: bool)
    requires Inv(t, st) && id in st.nodes
    ensures var r := BuildNode(t, st, id, level, isLast);
            Inv(t, r) && Extends(t, st, r, id)
    decreases Unprocessed(st), 0, 0, 0
  {
    if id in st.processed {
      BuildNodeFrame(t, st, id, level, isLast);
      ExtendsRefl(t, st, id);
    } else {
      var st1 := Mark(t, st, id, level, isLast);
      var kids := SpanKids(t, st.nodes[id].event);
      var r := BuildChildren(t, st1, id, kids, 0, level);
      assert BuildNode(t, st, id, level, isLast) == r;
      MarkKeepsInv(t, st, id, level, isLast);
      MarkFrame(t, st, id, level, isLast);
      assert st1.nodes[id].children == [];
      BuildChildrenInv(t, st1, id, kids, 0, level);
      NodeStepExtends(t, st, st1, r, id);
    }
  }

  /** The child loop from position `i` keeps the invariant, extends the
      state with no new top node, and leaves every remaining span entry that
      has a node processed. */
  lemma {:induction false} BuildChildrenInv(t: Tables, st: BuildState, parent: string, kids: seq<Event>, i: nat, level: int)
    requires Inv(t, st) && parent in st.processed && i <= |kids|
    requires st.nodes[parent].level == level && kids == SpanKids(t, st.nodes[parent].event)
    ensures var r := BuildChildren(t, st, parent, kids, i, level);
            Inv(t, r) && Extends(t, st, r, parent) && DoneFrom(kids, i, r)
    decreases Unprocessed(st), 1, |kids| - i, 1
  {
    if i == |kids| {
      assert BuildChildren(t, st, parent, kids, i, level) == st;
      ExtendsRefl(t, st, parent);
      assert DoneFrom(kids, i, st);
    } else if kids[i].eventId in st.processed || kids[i].eventId !in st.nodes {
      SkipKidInv(t, st, parent, kids, i, level);
    } else {
      PushedKidInv(t, st, parent, kids, i, level);
    }
  }

  /** The loop passing over an entry that is processed or has no node. */
  lemma {:induction false} SkipKidInv(t: Tables, st: BuildState, parent: string, kids: seq<Event>, i: nat, level: int)
    requires Inv(t, st) && parent in st.processed && i < |kids|
    requires kids[i].eventId in st.processed || kids[i].eventId !in st.nodes
    requires st.nodes[parent].level == level && kids == SpanKids(t, st.nodes[parent].event)
    ensures var r := BuildChildren(t, st, parent, kids, i, level);
            Inv(t, r) && Extends(t, st, r, parent) && DoneFrom(kids, i, r)
    decreases Unprocessed(st), 1, |kids| - i, 0
  {
    var r := BuildChildren(t, st, parent, kids, i + 1, level);
    assert BuildChildren(t, st, parent, kids, i, level) == r;
    BuildChildrenInv(t, st, parent, kids, i + 1, level);
    assert kids[i].eventId in r.nodes ==> kids[i].eventId in r.processed;
  }

  /** The loop building an unprocessed entry and pushing it. */
  lemma {:induction false} PushedKidInv(t: Tables, st: BuildState, parent: string, kids: seq<Event>, i: nat, level: int)
    requires Inv(t, st) && parent in st.processed && i < |kids|
    requires kids[i].eventId in st.nodes && kids[i].eventId !in st.processed
    requires st.nodes[parent].level == level && kids == SpanKids(t, st.nodes[parent].event)
    ensures var r := BuildChildren(t, st, parent, kids, i, level);
            Inv(t, r) && Extends(t, st, r, parent) && DoneFrom(kids, i, r)
    decreases Unprocessed(st), 1, |kids| - i, 0
  {
    var c := kids[i].eventId;
    var st3 := Push(BuildNode(t, st, c, level + 1, i == |kids| - 1), parent, c);
    var r := BuildChildren(t, st3, parent, kids, i + 1, level);
    ChildrenUnfold(t, st, parent, kids, i, level);
    KidStep(t, st, parent, kids, i, level);
    BuildChildrenInv(t, st3, parent, kids, i + 1, level);
    ExtendsTrans(t, st, st3, r, parent);
    DoneFromStep(kids, i, st3, r);
  }

  /** Building an unprocessed entry and pushing it: the invariant, an
      extension with the parent as top, and the parent's children still in
      span-list order up to the entry. */
  lemma {:induction false} KidStep(t: Tables, st: BuildState, parent: string, kids: seq<Event>, i: nat, level: int)
    requires Inv(t, st) && parent in st.processed && i < |kids|
    requires kids[i].eventId in st.nodes && kids[i].eventId !in st.processed
    requires st.nodes[parent].level == level && kids == SpanKids(t, st.nodes[parent].event)
    ensures var st3 := Push(BuildNode(t, st, kids[i].eventId, level + 1, i == |kids| - 1), parent, kids[i].eventId);
            Inv(t, st3) && Extends(t, st, st3, parent) && kids[i].eventId in st3.processed && parent in st3.processed &&
            st3.nodes[parent].level == level && kids == SpanKids(t, st3.nodes[parent].event)
    decreases Unprocessed(st), 0, 2, 0
  {
    var c := kids[i].eventId;
    var st2 := BuildNode(t, st, c, level + 1, i == |kids| - 1);
    BuildKidInv(t, st, parent, kids, i, level);
    PushKidInv(t, st, st2, parent, kids, i, level);
    PushExtends(t, st, st2, Push(st2, parent, c), parent, c);
  }

  /** One step of the child loop on an unprocessed entry that has a node. */
  lemma ChildrenUnfold(t: Tables, st: BuildState, parent: string, kids: seq<Event>, i: nat, level: int)
    requires Sane(st) && parent in st.nodes && i < |kids|
    requires kids[i].eventId in st.nodes && kids[i].eventId !in st.processed
    ensures var st3 := Push(BuildNode(t, st, kids[i].eventId, level + 1, i == |kids| - 1), parent, kids[i].eventId);
            Unprocessed(st3) <= Unprocessed(st) &&
            BuildChildren(t, st, parent, kids, i, level) == BuildChildren(t, st3, parent, kids, i + 1, level)
  {
    var st3 := Push(BuildNode(t, st, kids[i].eventId, level + 1, i == |kids| - 1), parent, kids[i].eventId);
    GrowingShrinks(st, st3);
  }

  /** Every entry of `kids` from position `i` on that has a node is
      processed. */
  predicate DoneFrom(kids: seq<Event>, i: nat, st: BuildState)
    decreases |kids| - i
  {
    i >= |kids| || ((kids[i].eventId in st.nodes ==> kids[i].eventId in st.processed) && DoneFrom(kids, i + 1, st))
  }

  lemma DoneFromStep(kids: seq<Event>, i: nat, st3: BuildState, r: BuildState)
    requires i < |kids| && kids[i].eventId in st3.processed && st3.processed <= r.processed
    requires DoneFrom(kids, i + 1, r)
    ensures DoneFrom(kids, i, r)
  {
  }

  lemma {:induction false} DoneFromAll(kids: seq<Event>, i: nat, st: BuildState)
    requires DoneFrom(kids, i, st)
    ensures forall j :: i <= j < |kids| && kids[j].eventId in st.nodes ==> kids[j].eventId in st.processed
    decreases |kids| - i
  {
    if i < |kids| {
      DoneFromAll(kids, i + 1, st);
    }
  }

  /** Building an unprocessed span entry: the invariant, the extension, and
      the entry processed, one level down, flagged last as the final entry,
      nobody's child yet, with the parent untouched. */
  lemma {:induction false} BuildKidInv(t: Tables, st: BuildState, parent: string, kids: seq<Event>, i: nat, level: int)
    requires Inv(t, st) && parent in st.processed && i < |kids|
    requires kids[i].eventId in st.nodes && kids[i].eventId !in st.processed
    ensures var st2 := BuildNode(t, st, kids[i].eventId, level + 1, i == |kids| - 1);
            Inv(t, st2) && Extends(t, st, st2, kids[i].eventId) && kids[i].eventId in st2.processed &&
            st2.nodes[parent] == st.nodes[parent] && st2.nodes[kids[i].eventId].level == level + 1 &&
            (st2.nodes[kids[i].eventId].isLast ==> i == |kids| - 1) && !IsChild(st2.nodes, kids[i].eventId)
    decreases Unprocessed(st), 0, 1, 0
  {
    var c := kids[i].eventId;
    BuildNodeInv(t, st, c, level + 1, i == |kids| - 1);
    BuildNodeFrame(t, st, c, level + 1, i == |kids| - 1);
    assert !IsChild(st.nodes, c);
  }

  /** Pushing a built span entry keeps the invariant and extends the
      parent's children in span-list order. */
  lemma PushKidInv(t: Tables, st: BuildState, st2: BuildState, parent: string, kids: seq<Event>, i: nat, level: int)
    requires Inv(t, st2) && parent in st.nodes && parent in st2.processed && i < |kids|
    requires kids[i].eventId in st2.processed && !IsChild(st2.nodes, kids[i].eventId)
    requires st2.nodes[parent] == st.nodes[parent]
    requires st.nodes[parent].level == level && kids == SpanKids(t, st.nodes[parent].event)
    requires st2.nodes[kids[i].eventId].level == level + 1 && (st2.nodes[kids[i].eventId].isLast ==> i == |kids| - 1)
    ensures var st3 := Push(st2, parent, kids[i].eventId);
            Inv(t, st3) && PushedOnly(st2, st3, parent, kids[i].eventId) && parent in st3.processed &&
            st3.nodes[parent].level == level && kids == SpanKids(t, st3.nodes[parent].event)
  {
    var c := kids[i].eventId;
    PushKeepsInv(t, st2, parent, c);
    PushFrame(st2, parent, c);
  }
}
