/** The event card of the run timeline (src/components/EventCard.tsx): the
    badge class of the event type, the header line, and which detail block the
    expanded card renders. */
module EventCard {
  import opened Types
  import TraceBadge

  datatype BadgeClass = BadgeError | BadgeInfo | BadgeWarning | BadgeSuccess

  function ClassName(b: BadgeClass): string {
    match b
    case BadgeError => "badge-error"
    case BadgeInfo => "badge-info"
    case BadgeWarning => "badge-warning"
    case BadgeSuccess => "badge-success"
  }

  /** `getEventTypeBadgeClass`: an "ERROR" anywhere wins, then "TOOL_CALL"
      is info, then the exact HUMAN_EDIT is a warning, then "START" is a
      success, and everything else is info. */
  function GetEventTypeBadgeClass(eventType: string): (b: BadgeClass)
    ensures b == BadgeError <==> Contains(eventType, "ERROR")
    ensures b == BadgeWarning <==> eventType == "HUMAN_EDIT"
    ensures b == BadgeSuccess ==> Contains(eventType, "START") && !Contains(eventType, "TOOL_CALL")
  {
    HumanEditHasNoMarker(eventType);
    if Contains(eventType, "ERROR") then BadgeError
    else if Contains(eventType, "TOOL_CALL") then BadgeInfo
    else if eventType == "HUMAN_EDIT" then BadgeWarning
    else if Contains(eventType, "START") then BadgeSuccess
    else BadgeInfo
  }

  lemma HumanEditHasNoMarker(h: string)
    ensures h == "HUMAN_EDIT" ==> !Contains(h, "ERROR") && !Contains(h, "TOOL_CALL")
  {
    if h == "HUMAN_EDIT" {
      TraceBadge.NotContainsChar(h, "ERROR", 1);
      TraceBadge.NotContainsChar(h, "TOOL_CALL", 1);
    }
  }

  /** An error type is shown as an error whatever else it mentions, and a
      tool-call type without "ERROR" is info even when it is a START. */
  lemma ErrorBeforeToolCallBeforeStart(eventType: string)
    ensures Contains(eventType, "ERROR") ==> GetEventTypeBadgeClass(eventType) == BadgeError
    ensures !Contains(eventType, "ERROR") && Contains(eventType, "TOOL_CALL")
            ==> GetEventTypeBadgeClass(eventType) == BadgeInfo
  {
  }

  /** The success class is reached exactly by a START type with no earlier
      match, and info covers every type that matches neither an error, the
      exact edit nor such a START. */
  lemma SuccessAndDefault(eventType: string)
    ensures GetEventTypeBadgeClass(eventType) == BadgeSuccess <==>
            !Contains(eventType, "ERROR") && !Contains(eventType, "TOOL_CALL") &&
            eventType != "HUMAN_EDIT" && Contains(eventType, "START")
    ensures GetEventTypeBadgeClass(eventType) == BadgeInfo <==>
            !Contains(eventType, "ERROR") && eventType != "HUMAN_EDIT" &&
            (Contains(eventType, "TOOL_CALL") || !Contains(eventType, "START"))
  {
  }

  /** TOOL_CALL_START is info rather than success; AGENT_START is success. */
  lemma StartTypesClassified(toolStart: string, agentStart: string)
    requires toolStart == "TOOL_CALL_START" && agentStart == "AGENT_START"
    ensures GetEventTypeBadgeClass(toolStart) == BadgeInfo
    ensures GetEventTypeBadgeClass(agentStart) == BadgeSuccess
  {
    ToolStartIsInfo(toolStart);
    AgentStartIsSuccess(agentStart);
  }

  lemma ToolStartIsInfo(toolStart: string)
    requires toolStart == "TOOL_CALL_START"
    ensures GetEventTypeBadgeClass(toolStart) == BadgeInfo
  {
    TraceBadge.NotContainsChar(toolStart, "ERROR", 0);
    assert Contains(toolStart, "TOOL_CALL");
  }

  lemma AgentStartIsSuccess(agentStart: string)
    requires agentStart == "AGENT_START"
    ensures GetEventTypeBadgeClass(agentStart) == BadgeSuccess
  {
    TraceBadge.NotContainsChar(agentStart, "ERROR", 3);
    TraceBadge.NotContainsChar(agentStart, "TOOL_CALL", 1);
    assert agentStart[6..11] == "START";
    ContainsAt(agentStart, "START");
    assert OccursAt(agentStart, "START", 6);
  }

  /** Which detail block the expanded card shows. */
  datatype Content = HumanEditDiff | ToolCallFields | AgentStepFields | NetworkCallFields | RawData

  /** The legacy type names that have a dedicated detail block. */
  const DedicatedTypes: set<string> := {"HUMAN_EDIT", "TOOL_CALL_START", "TOOL_CALL_END", "AGENT_STEP", "NETWORK_CALL"}

  /** `renderEventContent`: a switch on the exact type string. */
  function RenderEventContent(eventType: string): (c: Content)
    ensures c == RawData <==> eventType !in DedicatedTypes
    ensures c == ToolCallFields <==> eventType == "TOOL_CALL_START" || eventType == "TOOL_CALL_END"
    ensures c == HumanEditDiff <==> eventType == "HUMAN_EDIT"
    ensures c == AgentStepFields <==> eventType == "AGENT_STEP"
    ensures c == NetworkCallFields <==> eventType == "NETWORK_CALL"
  {
    match eventType
    case "HUMAN_EDIT" => HumanEditDiff
    case "TOOL_CALL_START" => ToolCallFields
    case "TOOL_CALL_END" => ToolCallFields
    case "AGENT_STEP" => AgentStepFields
    case "NETWORK_CALL" => NetworkCallFields
    case _ => RawData
  }

  /** The dotted names of the newer convention have no dedicated block: the
      card shows their raw payload. */
  lemma DottedNamesShowRawData(eventType: string)
    requires eventType in {"tool.call.start", "tool.call.end", "agent.step", "agent.run.start", "llm.call"}
    ensures RenderEventContent(eventType) == RawData
  {
  }

  /** The card header: the badge, the type text and the sequence number,
      which is shown whenever it is not null (so also when it is 0). */
  datatype Header = Header(badge: BadgeClass, typeText: string, sequenceNum: Option<int>)

  function CardHeader(e: Event): (h: Header)
    ensures h.badge == GetEventTypeBadgeClass(e.eventType) && h.typeText == e.eventType
    ensures h.sequenceNum.Some? <==> e.sequenceNum != None
    ensures h.sequenceNum.Some? ==> h.sequenceNum.value == e.sequenceNum.value
  {
    Header(GetEventTypeBadgeClass(e.eventType), e.eventType,
           if e.sequenceNum != None then Some(e.sequenceNum.value) else None)
  }
}
