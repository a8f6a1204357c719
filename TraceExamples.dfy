/** Small traces worked through the builder: a tool call with its network
    call and its end event, a span cycle, and a span list whose two entries
    share an event id. */
module TraceExamples {
  import opened Types
  import opened TraceTables
  import opened TraceSpec
  import opened TraceInvariant
  import TraceSort

  function ToolData(toolCallId: string): EventData {
    NoData.(toolCallId := Some(toolCallId))
  }

  const Start := Event("e1", "TOOL_CALL_START", Some("s1"), None, Some(1), 0, ToolData("t1"))
  const Call := Event("e2", "NETWORK_CALL", None, None, Some(2), 0, ToolData("t1"))
  const End := Event("e3", "TOOL_CALL_END", None, None, Some(3), 0, ToolData("t1"))

  function Trace(): seq<Event> {
    [Start, Call, End]
  }

  lemma ExampleSorted()
    ensures TraceSort.SortEvents(Trace()) == Trace()
  {
    TraceSort.SortKeepsSortedInput(Trace(), true);
  }

  lemma ExampleNetTable()
    ensures Table(Trace(), NetworkCallsByToolCall) == map["t1" := [Call]]
  {
    var s := Trace();
    assert s[..2] == [Start, Call] && s[..2][..1] == [Start] && s[..2][..1][..0] == [];
    assert Table([], NetworkCallsByToolCall) == map[];
    assert Table([Start], NetworkCallsByToolCall) == map[];
    assert Call.data.toolCallId == Some("t1") && IsNetworkCall(Call);
    assert KeyFor(NetworkCallsByToolCall, Call) == Some("t1");
    assert [Start, Call][..1] == [Start];
    assert [] + [Call] == [Call];
    assert Table([Start, Call], NetworkCallsByToolCall) == Table([Start], NetworkCallsByToolCall)["t1" := [] + [Call]];
    assert Table([Start, Call], NetworkCallsByToolCall) == map["t1" := [Call]];
  }

  lemma ExampleChildTable()
    ensures Table(Trace(), ChildrenByParent) == map[]
  {
    var s := Trace();
    assert s[..2] == [Start, Call] && s[..2][..1] == [Start] && s[..2][..1][..0] == [];
    assert Table([], ChildrenByParent) == map[];
    assert Table([Start], ChildrenByParent) == map[];
    assert Table([Start, Call], ChildrenByParent) == map[];
  }

  lemma ExampleNodes()
    ensures InitialNodes(Trace()) == map["e1" := FreshNode(Start), "e2" := FreshNode(Call), "e3" := FreshNode(End)]
  {
    var s := Trace();
    assert s[..2] == [Start, Call] && s[..2][..1] == [Start] && s[..2][..1][..0] == [];
    assert InitialNodes([Start]) == map["e1" := FreshNode(Start)];
    assert InitialNodes([Start, Call]) == map["e1" := FreshNode(Start), "e2" := FreshNode(Call)];
  }

  lemma ExampleTables()
    ensures TablesOf(Trace()) == Tables(map["t1" := [Call]], map[])
  {
    ExampleNetTable();
    ExampleChildTable();
  }

  const T0 := Tables(map["t1" := [Call]], map[])
  const N0 := map["e1" := FreshNode(Start), "e2" := FreshNode(Call), "e3" := FreshNode(End)]
  const St0 := BuildState(N0, map[], {})
  const St1 := BuildState(N0["e1" := TraceNode(Start, [], [Call], 0, true)], map["t1" := "e1"], {"e1"})
  const St2 := BuildState(St1.nodes["e3" := TraceNode(End, [], [Call], 0, true)], map["t1" := "e1"], {"e1", "e3"})

  lemma ExampleFirstRoot()
    ensures RootStep(T0, Trace(), 0, St0, []) == PassResult(St1, ["e1"])
  {
    assert SpanKids(T0, Start) == [];
    assert Mark(T0, St0, "e1", 0, true) == St1;
    assert BuildNode(T0, St0, "e1", 0, true) == St1;
  }

  lemma ExampleSkipCall()
    ensures RootStep(T0, Trace(), 1, St1, ["e1"]) == PassResult(St1, ["e1"])
  {
    assert IsNetworkCall(Trace()[1]);
  }

  lemma ExampleSecondRoot()
    ensures RootStep(T0, Trace(), 2, St1, ["e1"]) == PassResult(St2, ["e1", "e3"])
  {
    assert SpanKids(T0, End) == [];
    assert NetCallsFor(T0, End) == [Call];
    assert Mark(T0, St1, "e3", 0, true) == St2;
    assert BuildNode(T0, St1, "e3", 0, true) == St2;
  }

  lemma ExampleRootPass()
    ensures RootPass(T0, Trace(), 0, St0, []) == PassResult(St2, ["e1", "e3"])
  {
    ExampleFirstRoot();
    ExampleSkipCall();
    ExampleSecondRoot();
    assert RootPass(T0, Trace(), 3, St2, ["e1", "e3"]) == PassResult(St2, ["e1", "e3"]);
    assert RootPass(T0, Trace(), 2, St1, ["e1"]) == PassResult(St2, ["e1", "e3"]);
    assert RootPass(T0, Trace(), 1, St1, ["e1"]) == PassResult(St2, ["e1", "e3"]);
  }

  lemma ExampleEndPass()
    ensures EndLinkPass(Trace(), 0, St0) == St0
  {
    assert EndLinkPass(Trace(), 3, St0) == St0;
    assert EndLinkPass(Trace(), 2, St0) == St0;
    assert EndLinkPass(Trace(), 1, St0) == St0;
  }

  /** The end event is not linked under its start: the end pass runs before
      any start is registered, so the end event becomes a second root, and it
      shares the start's network call through their common tool-call id. The
      network call is no node of the forest. */
  lemma ToolCallExample()
    ensures TraceTree(Trace()) ==
            Forest(["e1", "e3"], map["e1" := TraceNode(Start, [], [Call], 0, true),
                                     "e2" := FreshNode(Call),
                                     "e3" := TraceNode(End, [], [Call], 0, true)])
  {
    var sorted := TraceSort.SortEvents(Trace());
    ExampleSorted();
    ExampleTables();
    ExampleNodes();
    assert TablesOf(sorted) == T0;
    assert InitialState(sorted) == St0;
    ExampleEndPass();
    ExampleRootPass();
    assert RootPass(TablesOf(sorted), sorted, 0, EndLinkPass(sorted, 0, InitialState(sorted)), []) == PassResult(St2, ["e1", "e3"]);
    ExampleFinalNodes();
  }

  lemma ExampleFinalNodes()
    ensures St2.nodes == map["e1" := TraceNode(Start, [], [Call], 0, true), "e2" := FreshNode(Call),
                             "e3" := TraceNode(End, [], [Call], 0, true)]
  {
  }

  const SpanA := Event("A", "AGENT_STEP", Some("a"), Some("b"), Some(1), 0, NoData)
  const SpanB := Event("B", "AGENT_STEP", Some("b"), Some("a"), Some(2), 0, NoData)

  function Cycle(): seq<Event> {
    [SpanA, SpanB]
  }

  lemma CycleChildTable()
    ensures Table(Cycle(), ChildrenByParent) == map["b" := [SpanA], "a" := [SpanB]]
  {
    var s := Cycle();
    assert s[..1] == [SpanA] && s[..1][..0] == [];
    assert [] + [SpanA] == [SpanA] && [] + [SpanB] == [SpanB];
    assert Table([], ChildrenByParent) == map[];
    assert Table([SpanA], ChildrenByParent) == map["b" := [SpanA]];
  }

  lemma CycleNetTable()
    ensures Table(Cycle(), NetworkCallsByToolCall) == map[]
  {
    var s := Cycle();
    assert s[..1] == [SpanA] && s[..1][..0] == [];
    assert Table([SpanA], NetworkCallsByToolCall) == map[];
  }

  lemma CycleNodes()
    ensures InitialNodes(Cycle()) == map["A" := FreshNode(SpanA), "B" := FreshNode(SpanB)]
  {
    var s := Cycle();
    assert s[..1] == [SpanA] && s[..1][..0] == [];
    assert InitialNodes([SpanA]) == map["A" := FreshNode(SpanA)];
  }

  const CT := Tables(map[], map["b" := [SpanA], "a" := [SpanB]])
  const CN := map["A" := FreshNode(SpanA), "B" := FreshNode(SpanB)]
  const C0 := BuildState(CN, map[], {})
  /** A marked as the first root. */
  const C1 := BuildState(CN["A" := TraceNode(SpanA, [], [], 0, true)], map[], {"A"})
  /** B built under A, one level down and last of A's span list. */
  const C2 := BuildState(C1.nodes["B" := TraceNode(SpanB, [], [], 1, true)], map[], {"A", "B"})
  const C3 := BuildState(C2.nodes["A" := TraceNode(SpanA, ["B"], [], 0, true)], map[], {"A", "B"})

  lemma CycleBuildB()
    ensures BuildNode(CT, C1, "B", 1, true) == C2
  {
    assert SpanKids(CT, SpanB) == [SpanA];
    assert Mark(CT, C1, "B", 1, true) == C2;
    assert BuildChildren(CT, C2, "B", [SpanA], 1, 1) == C2;
    assert BuildChildren(CT, C2, "B", [SpanA], 0, 1) == C2;
  }

  lemma CyclePushB()
    ensures Push(C2, "A", "B") == C3
  {
    assert C2.nodes["A"] == TraceNode(SpanA, [], [], 0, true);
    var empty: seq<string> := [];
    assert empty + ["B"] == ["B"];
  }

  lemma CycleBuildA()
    ensures BuildNode(CT, C0, "A", 0, true) == C3
  {
    assert SpanKids(CT, SpanA) == [SpanB];
    assert Mark(CT, C0, "A", 0, true) == C1;
    CycleBuildB();
    CyclePushB();
    assert BuildChildren(CT, C3, "A", [SpanB], 1, 0) == C3;
    assert BuildChildren(CT, C1, "A", [SpanB], 0, 0) == C3;
  }

  lemma CycleRootPass()
    ensures RootPass(CT, Cycle(), 0, C0, []) == PassResult(C3, ["A"])
  {
    assert RootCandidate(CN, SpanA);
    CycleBuildA();
    assert RootStep(CT, Cycle(), 0, C0, []) == PassResult(C3, ["A"]);
    assert RootStep(CT, Cycle(), 1, C3, ["A"]) == PassResult(C3, ["A"]);
    assert RootPass(CT, Cycle(), 2, C3, ["A"]) == PassResult(C3, ["A"]);
    assert RootPass(CT, Cycle(), 1, C3, ["A"]) == PassResult(C3, ["A"]);
  }

  /** Two events whose spans name each other as parent: the cycle is cut,
      and each appears once. The parent span ids are not event ids, so both
      pass the root test; the first becomes the root and the second its only
      child, one level down and flagged last, and the second is skipped as a
      root once it is processed. */
  lemma SpanCycleExample()
    ensures TraceTree(Cycle()) ==
            Forest(["A"], map["A" := TraceNode(SpanA, ["B"], [], 0, true), "B" := TraceNode(SpanB, [], [], 1, true)])
  {
    var sorted := TraceSort.SortEvents(Cycle());
    TraceSort.SortKeepsSortedInput(Cycle(), true);
    CycleChildTable();
    CycleNetTable();
    CycleNodes();
    assert TablesOf(sorted) == CT;
    assert InitialState(sorted) == C0;
    CycleEndPass();
    CycleRootPass();
    assert RootPass(TablesOf(sorted), sorted, 0, EndLinkPass(sorted, 0, InitialState(sorted)), []) == PassResult(C3, ["A"]);
    CycleFinalNodes();
  }

  lemma CycleFinalNodes()
    ensures C3.nodes == map["A" := TraceNode(SpanA, ["B"], [], 0, true), "B" := TraceNode(SpanB, [], [], 1, true)]
  {
  }

  lemma CycleEndPass()
    ensures EndLinkPass(Cycle(), 0, C0) == C0
  {
    assert EndLinkPass(Cycle(), 2, C0) == C0;
    assert EndLinkPass(Cycle(), 1, C0) == C0;
  }

  const ParentEv := Event("P", "AGENT_STEP", Some("p"), None, Some(1), 0, NoData)
  const FirstA := Event("a", "AGENT_STEP", None, Some("p"), Some(2), 0, NoData)
  const SecondA := Event("a", "AGENT_STEP", None, Some("p"), Some(3), 0, NoData)
  const DT := Tables(map[], map["p" := [FirstA, SecondA]])
  const D0 := BuildState(map["P" := TraceNode(ParentEv, [], [], 0, true), "a" := FreshNode(SecondA)], map[], {"P"})
  const D1 := BuildState(D0.nodes["a" := TraceNode(SecondA, [], [], 1, false)], map[], {"P", "a"})
  const D2 := BuildState(D1.nodes["P" := TraceNode(ParentEv, ["a"], [], 0, true)], map[], {"P", "a"})

  /** The span list of "P" built from D0, "P" marked: the first entry
      builds node "a", unflagged, and the second is skipped as processed. */
  lemma DuplicatedKids()
    ensures BuildChildren(DT, D0, "P", [FirstA, SecondA], 0, 0) == D2
  {
    assert SpanKids(DT, SecondA) == [];
    assert Mark(DT, D0, "a", 1, false) == D1;
    assert BuildNode(DT, D0, "a", 1, false) == D1;
    var empty: seq<string> := [];
    assert empty + ["a"] == ["a"];
    assert Push(D1, "P", "a") == D2;
    assert BuildChildren(DT, D2, "P", [FirstA, SecondA], 2, 0) == D2;
    assert BuildChildren(DT, D2, "P", [FirstA, SecondA], 1, 0) == D2;
  }

  /** Two span entries with the same event id: the node is built from the
      first entry, so unflagged, and the final entry is then skipped as
      processed. The child is the final entry's id but is not flagged last,
      which is why the converse of the last flags is stated only for an id
      that no earlier entry has. */
  lemma DuplicateLastKidUnflagged()
    ensures var r := BuildChildren(DT, D0, "P", [FirstA, SecondA], 0, 0);
            r.nodes["P"].children == ["a"] && LastKid(DT, ParentEv) == Some("a") && !r.nodes["a"].isLast
  {
    DuplicatedKids();
  }

  function Duplicated(): seq<Event> {
    [ParentEv, FirstA, SecondA]
  }

  lemma DuplicatedChildTable()
    ensures Table(Duplicated(), ChildrenByParent) == map["p" := [FirstA, SecondA]]
  {
    var s := Duplicated();
    assert s[..2] == [ParentEv, FirstA] && s[..2][..1] == [ParentEv] && s[..2][..1][..0] == [];
    assert [] + [FirstA] == [FirstA] && [FirstA] + [SecondA] == [FirstA, SecondA];
    assert Table([], ChildrenByParent) == map[];
    assert Table([ParentEv], ChildrenByParent) == map[];
    assert [ParentEv, FirstA][..1] == [ParentEv];
    assert Table([ParentEv, FirstA], ChildrenByParent) == map["p" := [FirstA]];
  }

  lemma DuplicatedNetTable()
    ensures Table(Duplicated(), NetworkCallsByToolCall) == map[]
  {
    var s := Duplicated();
    assert s[..2] == [ParentEv, FirstA] && s[..2][..1] == [ParentEv] && s[..2][..1][..0] == [];
    assert Table([ParentEv], NetworkCallsByToolCall) == map[];
    assert Table([ParentEv, FirstA], NetworkCallsByToolCall) == map[];
  }

  lemma DuplicatedFrontNodes()
    ensures InitialNodes([ParentEv, FirstA]) == map["P" := FreshNode(ParentEv), "a" := FreshNode(FirstA)]
  {
    var s := [ParentEv, FirstA];
    assert s[..1] == [ParentEv] && s[..1][..0] == [];
    assert InitialNodes([ParentEv]) == map["P" := FreshNode(ParentEv)];
  }

  /** The node map keeps the final event of the two that share id "a". */
  lemma DuplicatedNodes()
    ensures InitialNodes(Duplicated()) == DN
  {
    var s := Duplicated();
    assert s[..2] == [ParentEv, FirstA];
    DuplicatedFrontNodes();
  }

  const DN := map["P" := FreshNode(ParentEv), "a" := FreshNode(SecondA)]
  const DS := BuildState(DN, map[], {})

  lemma DuplicatedMarkP()
    ensures Mark(DT, DS, "P", 0, true) == D0
  {
  }

  lemma DuplicatedBuildP()
    ensures BuildNode(DT, DS, "P", 0, true) == D2
  {
    assert SpanKids(DT, DS.nodes["P"].event) == [FirstA, SecondA];
    DuplicatedMarkP();
    DuplicatedKids();
  }

  lemma DuplicatedFirstRoot()
    ensures RootStep(DT, Duplicated(), 0, DS, []) == PassResult(D2, ["P"])
  {
    assert RootCandidate(DN, ParentEv);
    DuplicatedBuildP();
  }

  lemma DuplicatedRootPass()
    ensures RootPass(DT, Duplicated(), 0, DS, []) == PassResult(D2, ["P"])
  {
    DuplicatedFirstRoot();
    assert RootStep(DT, Duplicated(), 1, D2, ["P"]) == PassResult(D2, ["P"]);
    assert RootStep(DT, Duplicated(), 2, D2, ["P"]) == PassResult(D2, ["P"]);
    assert RootPass(DT, Duplicated(), 3, D2, ["P"]) == PassResult(D2, ["P"]);
    assert RootPass(DT, Duplicated(), 2, D2, ["P"]) == PassResult(D2, ["P"]);
    assert RootPass(DT, Duplicated(), 1, D2, ["P"]) == PassResult(D2, ["P"]);
  }

  lemma DuplicatedEndPass()
    ensures EndLinkPass(Duplicated(), 0, DS) == DS
  {
    assert EndLinkPass(Duplicated(), 3, DS) == DS;
    assert EndLinkPass(Duplicated(), 2, DS) == DS;
    assert EndLinkPass(Duplicated(), 1, DS) == DS;
  }

  lemma DuplicatedSorted()
    ensures TraceSort.SortEvents(Duplicated()) == Duplicated()
  {
    TraceSort.SortKeepsSortedInput(Duplicated(), true);
  }

  lemma DuplicatedTables()
    ensures TablesOf(Duplicated()) == DT
  {
    DuplicatedChildTable();
    DuplicatedNetTable();
  }

  lemma DuplicatedForest()
    ensures TraceTree(Duplicated()) == Forest(["P"], D2.nodes)
  {
    DuplicatedSorted();
    DuplicatedTables();
    DuplicatedNodes();
    assert InitialState(Duplicated()) == DS;
    DuplicatedEndPass();
    DuplicatedRootPass();
  }

  /** The whole builder on a parent and two span children that share the
      event id "a": the one root's only child is "a", the id of the final
      entry of its span list, yet that child is not flagged last. */
  lemma DuplicateIdExample()
    ensures var f := TraceTree(Duplicated());
            f == Forest(["P"], D2.nodes) && f.nodes["P"].children == ["a"] && !f.nodes["a"].isLast &&
            LastKid(TablesOf(TraceSort.SortEvents(Duplicated())), f.nodes["P"].event) == Some("a")
  {
    DuplicatedForest();
    DuplicatedSorted();
    DuplicatedTables();
    DuplicateLastKidUnflagged();
  }
}
