/** The category badge of the trace view (`getEventTypeBadge`,
    src/components/TraceView.tsx): substring tests on the event type, checked
    in a fixed priority order. */
module TraceBadge {
  import opened Types

  /** The categories in priority order; `Other` is the "EVENT" fallback. */
  datatype Category = Agent | Tool | Http | Llm | Chain | Edit | Other

  datatype Badge = Badge(text: string, color: string, bgColor: string)

  /** Position of a category in the priority order (smaller wins). */
  function Rank(c: Category): nat {
    match c
    case Agent => 0
    case Tool => 1
    case Http => 2
    case Llm => 3
    case Chain => 4
    case Edit => 5
    case Other => 6
  }

  /** The test that admits an event type to a category, on its own. */
  predicate Matches(c: Category, eventType: string) {
    match c
    case Agent => Contains(eventType, "AGENT_START") || Contains(eventType, "agent.run.start")
    case Tool => Contains(eventType, "TOOL_CALL") || Contains(eventType, "tool.call")
    case Http => Contains(eventType, "NETWORK_CALL")
    case Llm => Contains(eventType, "llm.call")
    case Chain => Contains(eventType, "AGENT_STEP") || Contains(eventType, "agent.step")
    case Edit => eventType == "HUMAN_EDIT"
    case Other => true
  }

  /** The category chosen for an event type: the one of highest priority
      whose test it passes. */
  function CategoryOf(eventType: string): (c: Category)
    ensures Matches(c, eventType)
    ensures forall d :: Rank(d) < Rank(c) ==> !Matches(d, eventType)
  {
    if Contains(eventType, "AGENT_START") || Contains(eventType, "agent.run.start") then Agent
    else if Contains(eventType, "TOOL_CALL") || Contains(eventType, "tool.call") then Tool
    else if Contains(eventType, "NETWORK_CALL") then Http
    else if Contains(eventType, "llm.call") then Llm
    else if Contains(eventType, "AGENT_STEP") || Contains(eventType, "agent.step") then Chain
    else if eventType == "HUMAN_EDIT" then Edit
    else Other
  }

  /** The label and colours shown for a category. */
  function BadgeFor(c: Category): (b: Badge)
    ensures b.text == "AGENT" <==> c == Agent
    ensures b.text == "TOOL" <==> c == Tool
    ensures b.text == "HTTP" <==> c == Http
    ensures b.text == "LLM" <==> c == Llm
    ensures b.text == "CHAIN" <==> c == Chain
    ensures b.text == "EDIT" <==> c == Edit
    ensures b.text == "EVENT" <==> c == Other
  {
    match c
    case Agent => Badge("AGENT", "#10b981", "rgba(16, 185, 129, 0.15)")
    case Tool => Badge("TOOL", "#3b82f6", "rgba(59, 130, 246, 0.15)")
    case Http => Badge("HTTP", "#8b5cf6", "rgba(139, 92, 246, 0.15)")
    case Llm => Badge("LLM", "#f59e0b", "rgba(245, 158, 11, 0.15)")
    case Chain => Badge("CHAIN", "#06b6d4", "rgba(6, 182, 212, 0.15)")
    case Edit => Badge("EDIT", "#ec4899", "rgba(236, 72, 153, 0.15)")
    case Other => Badge("EVENT", "#9ca3af", "rgba(156, 163, 175, 0.15)")
  }

  /** `getEventTypeBadge`; its `eventData` argument is never read. The badge
      is that of the first category, in priority order, whose test passes;
      each label appears exactly when its test passes and no earlier one
      does. */
  function GetEventTypeBadge(eventType: string): (b: Badge)
    ensures exists c :: b == BadgeFor(c) && Matches(c, eventType) &&
                        forall d :: Rank(d) < Rank(c) ==> !Matches(d, eventType)
    ensures b.text == "AGENT" <==> Matches(Agent, eventType)
    ensures b.text == "TOOL" <==> !Matches(Agent, eventType) && Matches(Tool, eventType)
    ensures b.text == "HTTP" <==> !Matches(Agent, eventType) && !Matches(Tool, eventType) && Matches(Http, eventType)
    ensures b.text == "LLM" <==> !Matches(Agent, eventType) && !Matches(Tool, eventType) && !Matches(Http, eventType) &&
                                 Matches(Llm, eventType)
    ensures b.text == "CHAIN" <==> !Matches(Agent, eventType) && !Matches(Tool, eventType) && !Matches(Http, eventType) &&
                                   !Matches(Llm, eventType) && Matches(Chain, eventType)
    ensures b.text == "EDIT" <==> !Matches(Agent, eventType) && !Matches(Tool, eventType) && !Matches(Http, eventType) &&
                                  !Matches(Llm, eventType) && !Matches(Chain, eventType) && Matches(Edit, eventType)
    ensures b.text == "EVENT" <==> !Matches(Agent, eventType) && !Matches(Tool, eventType) && !Matches(Http, eventType) &&
                                   !Matches(Llm, eventType) && !Matches(Chain, eventType) && !Matches(Edit, eventType)
  {
    var c := CategoryOf(eventType);
    assert Rank(Agent) < Rank(Tool) < Rank(Http) < Rank(Llm) < Rank(Chain) < Rank(Edit) < Rank(Other);
    BadgeFor(c)
  }

  /** Distinct categories get distinct labels, so the label alone tells the
      category. */
  lemma LabelsDistinct(c: Category, d: Category)
    requires BadgeFor(c).text == BadgeFor(d).text
    ensures c == d
  {
  }

  /** The badge is the first category, in priority order, whose test the type
      passes: a category is chosen exactly when it matches and no category
      ranked before it does. */
  lemma CategoryIsFirstMatch(eventType: string, c: Category)
    ensures CategoryOf(eventType) == c <==>
            Matches(c, eventType) && forall d :: Rank(d) < Rank(c) ==> !Matches(d, eventType)
  {
    var r := CategoryOf(eventType);
    if Matches(c, eventType) && (forall d :: Rank(d) < Rank(c) ==> !Matches(d, eventType)) {
      assert !(Rank(r) < Rank(c));
      assert !(Rank(c) < Rank(r));
      RankInjective(r, c);
    }
  }

  lemma RankInjective(c: Category, d: Category)
    requires Rank(c) == Rank(d)
    ensures c == d
  {
  }

  /** A needle longer than the haystack never occurs in it. */
  lemma {:induction false} ContainsNeedsRoom(haystack: string, needle: string)
    requires Contains(haystack, needle)
    ensures |needle| <= |haystack|
    decreases |haystack|
  {
    if !(needle <= haystack) {
      ContainsNeedsRoom(haystack[1..], needle);
    }
  }

  /** A needle whose k-th character is absent from the haystack never occurs. */
  lemma NotContainsChar(haystack: string, needle: string, k: nat)
    requires k < |needle| && needle[k] !in haystack
    ensures !Contains(haystack, needle)
  {
    ContainsAt(haystack, needle);
  }

  /** A needle as long as the haystack occurs only if it is the haystack. */
  lemma NotContainsSameLength(haystack: string, needle: string)
    requires |needle| == |haystack| && needle != haystack
    ensures !Contains(haystack, needle)
  {
    if Contains(haystack, needle) && !(needle <= haystack) {
      ContainsNeedsRoom(haystack[1..], needle);
    }
  }

  /** A needle two of whose adjacent characters never stand side by side in
      the haystack never occurs. */
  lemma NotContainsPair(haystack: string, needle: string, k: nat)
    requires k + 1 < |needle|
    requires forall j :: 0 <= j < |haystack| - 1 ==> !(haystack[j] == needle[k] && haystack[j + 1] == needle[k + 1])
    ensures !Contains(haystack, needle)
  {
    ContainsAt(haystack, needle);
    forall i | OccursAt(haystack, needle, i)
      ensures haystack[i + k] == needle[k] && haystack[i + k + 1] == needle[k + 1]
    {
    }
  }

  /** The dotted run-start name is an agent, the dotted tool-call name a tool
      (the names are parameters so that the solver does not expand the
      substring tests on literals). */
  lemma DottedNamesClassified(runStart: string, toolStart: string)
    requires runStart == "agent.run.start" && toolStart == "tool.call.start"
    ensures GetEventTypeBadge(runStart).text == "AGENT"
    ensures GetEventTypeBadge(toolStart).text == "TOOL"
  {
    assert Contains(runStart, "agent.run.start");
    NotContainsChar(toolStart, "AGENT_START", 0);
    NotContainsSameLength(toolStart, "agent.run.start");
    assert Contains(toolStart, "tool.call");
  }

  /** The legacy names: AGENT_START is an agent, TOOL_CALL_START and
      TOOL_CALL_END are tools. */
  lemma LegacyNamesClassified(agentStart: string, toolStart: string, toolEnd: string)
    requires agentStart == "AGENT_START" && toolStart == "TOOL_CALL_START" && toolEnd == "TOOL_CALL_END"
    ensures GetEventTypeBadge(agentStart).text == "AGENT"
    ensures GetEventTypeBadge(toolStart).text == "TOOL"
    ensures GetEventTypeBadge(toolEnd).text == "TOOL"
  {
    assert Contains(agentStart, "AGENT_START");
    LegacyToolName(toolStart);
    LegacyToolName(toolEnd);
  }

  lemma LegacyToolName(s: string)
    requires s == "TOOL_CALL_START" || s == "TOOL_CALL_END"
    ensures GetEventTypeBadge(s).text == "TOOL"
  {
    assert 'G' !in s && 'a' !in s;
    NotContainsChar(s, "AGENT_START", 1);
    NotContainsChar(s, "agent.run.start", 0);
    assert s[..9] == "TOOL_CALL";
    assert Contains(s, "TOOL_CALL");
  }

  /** NETWORK_CALL is HTTP: it mentions no agent start and no tool call. */
  lemma NetworkCallClassified(n: string)
    requires n == "NETWORK_CALL"
    ensures GetEventTypeBadge(n).text == "HTTP"
  {
    NetworkCallNoAgentNoTool(n);
    assert Contains(n, "NETWORK_CALL");
  }

  lemma NetworkCallNoAgentNoTool(n: string)
    requires n == "NETWORK_CALL"
    ensures !Matches(Agent, n) && !Matches(Tool, n)
  {
    assert 'G' !in n && 'a' !in n && 't' !in n;
    NotContainsChar(n, "AGENT_START", 1);
    NotContainsChar(n, "agent.run.start", 0);
    NotContainsChar(n, "tool.call", 0);
    NetworkCallNotToolCall(n);
  }

  /** "OO" never stands in NETWORK_CALL. */
  lemma NetworkCallNotToolCall(n: string)
    requires n == "NETWORK_CALL"
    ensures !Contains(n, "TOOL_CALL")
  {
    NotContainsPair(n, "TOOL_CALL", 1);
  }

  /** Only the exact HUMAN_EDIT is an edit; a longer name that merely starts
      with it falls back to EVENT. */
  lemma HumanEditExact(h: string, h2: string)
    requires h == "HUMAN_EDIT" && h2 == "HUMAN_EDIT_V2"
    ensures GetEventTypeBadge(h).text == "EDIT"
    ensures GetEventTypeBadge(h2).text == "EVENT"
  {
    NoSubstringCategory(h);
    NoSubstringCategory(h2);
  }

  /** A name made only of the letters of HUMAN_EDIT_V2 passes none of the
      substring tests: every needle has an 'O', a 'G', a 'W' or a lower-case
      letter. */
  lemma NoSubstringCategory(h: string)
    requires forall c :: c in h ==> c in "HUMAN_EDIT_V2"
    ensures !Matches(Agent, h) && !Matches(Tool, h) && !Matches(Http, h)
    ensures !Matches(Llm, h) && !Matches(Chain, h)
  {
    assert 'G' !in h && 'O' !in h && 'W' !in h && 'a' !in h && 't' !in h && 'l' !in h;
    NoAgentNoTool(h);
    NoHttpLlmChain(h);
  }

  lemma NoAgentNoTool(h: string)
    requires 'G' !in h && 'O' !in h && 'a' !in h && 't' !in h
    ensures !Matches(Agent, h) && !Matches(Tool, h)
  {
    NotContainsChar(h, "AGENT_START", 1);
    NotContainsChar(h, "agent.run.start", 0);
    NotContainsChar(h, "TOOL_CALL", 1);
    NotContainsChar(h, "tool.call", 0);
  }

  lemma NoHttpLlmChain(h: string)
    requires 'G' !in h && 'W' !in h && 'a' !in h && 'l' !in h
    ensures !Matches(Http, h) && !Matches(Llm, h) && !Matches(Chain, h)
  {
    NotContainsChar(h, "NETWORK_CALL", 3);
    NotContainsChar(h, "llm.call", 0);
    NotContainsChar(h, "AGENT_STEP", 1);
    NotContainsChar(h, "agent.step", 0);
  }

  /** A composite type that names several categories resolves to the earliest
      one: an agent-run start that also mentions a tool call is an agent, a
      tool call that also mentions a network call is a tool. */
  lemma CompositeTypesResolveByPriority(eventType: string)
    ensures Contains(eventType, "agent.run.start") ==> CategoryOf(eventType) == Agent
    ensures !Matches(Agent, eventType) && Contains(eventType, "TOOL_CALL")
            ==> CategoryOf(eventType) == Tool
  {
  }
}
