# grimlock2 dashboard core, modelled in Dafny

This project models the logic of the grimlock2 agent-telemetry dashboard.
The dashboard is a React front end that shows runs and their events. The
core modelled here has four parts:

- **The trace-tree builder** (`buildHierarchicalTree` in
  `src/components/TraceView.tsx`). It sorts a run's events and files
  network calls under their tool-call id. It files every event under its
  parent span id and creates one node per event id. It runs the tool-call
  end pass. Then it runs the root pass, which calls the recursive
  `buildNodeTree`; that marks nodes processed, sets their level and last
  flag, attaches network calls, registers tool-call starts and pushes span
  children.
  - The builder is modelled twice. First as functions from one builder
    state to the next (`TraceSpec`). Then as the source writes it
    (`TraceBuilder`): loops that fill the tables, and a `TreeBuilder` object
    whose fields hold the event-id map, the tool-call map and the processed
    set. Its methods update those fields in place.
  - Each method is proved to compute its function. The properties are
    proved about the functions. They include:
    - termination on any span graph, cycles included;
    - no id appears twice in the forest;
    - levels and last flags, in both directions;
    - children lists in span-list order;
    - network calls on each node;
    - which events become roots, in which order;
    - the end pass changing nothing.
- **The classifiers of the trace view and the event card.**
  - The category badge (`getEventTypeBadge`).
  - The trace item's display name, token metric and status-code colour.
  - The event card's badge class and detail-block dispatch, and its
    sequence-number header.
- **The run timeline.** The type filter, the list of distinct types, the
  per-type counts of the filter menu, and the "no events" notice.
- **The runs list.** The first three type badges, the "+n" overflow badge,
  and the shortened user hash.

Nodes are kept in a map keyed by event id. The source reaches every node
through `eventMap.get(event_id)`, so the id stands for the node object. A
node's children are a sequence of ids.

Truthiness follows JavaScript:
- an optional string is truthy when it is present and not empty;
- an optional number is truthy when it is present and not zero.

Timestamps are integers (milliseconds). The sort is a stable insertion sort
that uses the source's comparator.

### Where the code and its comments disagree (the model follows the code)

- **The tool-call end pass does nothing.** Its comment says it links each
  end event under its start node. But it runs before the root pass, while
  the tool-call map is still empty: only `buildNodeTree` fills that map.
  `TraceTheorem.EndLinkIdle` proves that the pass leaves the state
  unchanged.
  - So in the trace `TOOL_CALL_START` / `NETWORK_CALL` / `TOOL_CALL_END`
    (one tool-call id), the end event does not become the start's child. It
    is a second root. Both roots carry the network call, which is not a
    node of the forest (`TraceExamples.ToolCallExample`).
- **The root test compares the parent span id with event ids.** The comment
  says "parent_span_id not found", but the test looks the parent span id up
  in the event-id map. So an event whose parent span id is another event's
  span id (but not an event id) still passes the root test. Two events whose
  spans name each other as parent are both root candidates. The first
  becomes a root; the second becomes its child, one level down
  (`TraceExamples.SpanCycleExample`).
- **The first root is always flagged last.** A later root is flagged last
  only when it is the final sorted event.
- **Last flags follow positions, not ids.** A child is flagged last when it
  is built from the final entry of its parent's span list. When two entries
  share an event id, the node is built from the first one and the final
  entry is skipped, so the child named by the final entry stays unflagged
  (`TraceExamples.DuplicateLastKidUnflagged`, and on a whole trace
  `TraceExamples.DuplicateIdExample`). The converse of the flag
  rules is therefore proved for an id that only the final entry (or only
  the final sorted event) has.

## Model

| member | source | states |
|---|---|---|
| Types.Truthy | src/components/TraceView.tsx:92 | an optional string is truthy exactly when it is present and not empty, as in `if (event.parent_span_id)` |
| Types.TruthyNum | src/components/TraceView.tsx:199-201 | an optional number is truthy exactly when it is present and not zero, as in the `\|\|` and `&&` of the token figures |
| Types.KeyOf | src/components/TraceView.tsx:69-70 | an optional string is used as a key exactly when it is truthy, and then as it is |
| Types.Contains | src/components/TraceView.tsx:19 | `String.prototype.includes`: the needle is a prefix of the haystack or of one of its suffixes |
| Types.ContainsAt | src/components/TraceView.tsx:19-33 | `includes` holds exactly when the needle occurs at some position of the haystack |
| TraceSort.Compare | src/components/TraceView.tsx:59-64 | the comparator is the difference of the sequence numbers when both events have one, and the difference of the timestamps otherwise |
| TraceSort.CompareAntisymmetric | src/components/TraceView.tsx:59-64 | swapping the two events negates the comparison, and an event compares equal to itself |
| TraceSort.MixedComparisonCycles | src/components/TraceView.tsx:59-64 | on a list mixing events with and without a sequence number the comparator can rank three events in a cycle, so it is no order there |
| TraceSort.Insert | src/components/TraceView.tsx:59-64 | inserting one event gives a list one longer with the same events plus the new one |
| TraceSort.SortEvents | src/components/TraceView.tsx:59-64 | the sorted list is a permutation of the input (same multiset, same length) |
| TraceSort.InsertSorted | src/components/TraceView.tsx:59-64 | inserting into a list ordered by sequence number (or by timestamp, when no event has one) keeps it ordered |
| TraceSort.SortedWhenUniform | src/components/TraceView.tsx:59-64 | when every event has a sequence number, the result is ordered by sequence number; when none has one, by timestamp |
| TraceSort.SortKeepsSortedInput | src/components/TraceView.tsx:59-64 | a list already strictly ordered by its key comes back unchanged |
| TraceSort.InsertWithKey | src/components/TraceView.tsx:59-64 | inserting into a sorted list of one mode puts the new event after every event of its key and moves no event of any key |
| TraceSort.SortIsStable | src/components/TraceView.tsx:59-64 | when all events have a sequence number, or none do, the events of each key come out in their input order |
| TraceSort.InsertMembers | src/components/TraceView.tsx:59-64 | the inserted list holds exactly the new event and the old ones |
| TraceTables.IsNetworkCall | src/components/TraceView.tsx:68 | an event is a network call exactly when its type is NETWORK_CALL |
| TraceTables.KeyFor | src/components/TraceView.tsx:68-70 | a NETWORK_CALL event with a truthy tool-call id is filed under that id in the network-call table, and nothing else is filed there; an event with a truthy parent span id is filed under it in the children table, whatever its type |
| TraceTables.FiledUnder | src/components/TraceView.tsx:67-77 | the events filed under a key are an order-preserving subsequence of the sorted events, each with that key |
| TraceTables.FiledUnderMembers | src/components/TraceView.tsx:67-77 | the events filed under a key are exactly the events of the list whose key it is |
| TraceTables.Table | src/components/TraceView.tsx:67-77 | a key is in the table exactly when some event is filed under it |
| TraceTables.TableIsFiling | src/components/TraceView.tsx:92-97 | each list of a table is exactly the events filed under its key, in sorted order, and a key is present exactly when that list is not empty |
| TraceTables.FiledUnderOneKey | src/components/TraceView.tsx:92-97 | no event lies under two different keys of a table |
| TraceTables.TablesFileEveryCandidate | src/components/TraceView.tsx:67-97 | every NETWORK_CALL event with a truthy tool-call id is in the network-call list of that id, and every event with a truthy parent span id is in the children list of that id |
| TraceTables.InitialNodes | src/components/TraceView.tsx:80-89 | the event-id map has a key exactly for each event id, and each node is a fresh node of an event with that id |
| TraceTables.LastEventWins | src/components/TraceView.tsx:89 | for two events with one id, the node holds the later event |
| TraceSpec.SpanKids | src/components/TraceView.tsx:130-132 | the span list of a node: the children-table entry of its truthy span id, or nothing |
| TraceSpec.SpanKidsExact | src/components/TraceView.tsx:130-132 | a node's span list is an order-preserving subsequence of the sorted events, holding exactly the events whose parent span id is the node's truthy span id |
| TraceSpec.NetCallsFor | src/components/TraceView.tsx:115-118 | the network calls of a node: the network-call entry of its truthy tool-call id, or none |
| TraceSpec.NetCallsForExact | src/components/TraceView.tsx:115-118 | a node's network calls are an order-preserving subsequence of the sorted events, holding exactly the NETWORK_CALL events with the node's truthy tool-call id |
| TraceSpec.IsToolStart | src/components/TraceView.tsx:122 | a tool-call start is of type TOOL_CALL_START or tool.call.start |
| TraceSpec.IsToolEnd | src/components/TraceView.tsx:148 | a tool-call end is of type TOOL_CALL_END or tool.call.end |
| TraceSpec.RootCandidate | src/components/TraceView.tsx:168-173 | an event passes the root test exactly when it is not a network call, its id has a node, and its parent span id is falsy or not an event id |
| TraceSpec.MarkingShrinks | src/components/TraceView.tsx:106-112 | marking an unprocessed node leaves fewer unprocessed nodes, the measure under which `buildNodeTree` terminates |
| TraceSpec.Mark | src/components/TraceView.tsx:110-127 | on entry the node is added to the processed set, the node keys stay the same, and the number of unprocessed nodes drops |
| TraceSpec.Push | src/components/TraceView.tsx:139 | pushing a child changes no key and no processed mark |
| TraceSpec.BuildNode | src/components/TraceView.tsx:104-144 | `buildNodeTree` terminates on any span graph; afterwards the node is processed, nothing was unmarked, and the node keys are unchanged |
| TraceSpec.BuildChildren | src/components/TraceView.tsx:130-143 | the loop over a span list terminates, keeps the node keys and only adds processed marks |
| TraceSpec.EndLinkStep | src/components/TraceView.tsx:147-161 | one step of the end pass changes neither the node keys nor the tool-call map |
| TraceSpec.EndLinkPass | src/components/TraceView.tsx:147-162 | the end pass changes neither the node keys nor the tool-call map |
| TraceSpec.RootStep | src/components/TraceView.tsx:166-178 | one step of the root pass keeps the node keys, only adds processed marks, and only appends to the roots |
| TraceSpec.RootPass | src/components/TraceView.tsx:165-179 | the root pass keeps the node keys, only adds processed marks, and the roots only grow at the end |
| TraceFrame.BuildNodeFrame | src/components/TraceView.tsx:104-144 | a processed node is left as it is; otherwise only newly processed nodes change, and the node gets the given level and last flag, and the network calls of its truthy tool-call id |
| TraceFrame.BuildChildrenFrame | src/components/TraceView.tsx:130-143 | the child loop changes only newly processed nodes and the parent, and the parent's children only grow at the end |
| TraceInvariant.InitialInv | src/components/TraceView.tsx:80-102 | the state before linking satisfies the builder invariant: unprocessed nodes are fresh, children are processed, no id is a child twice, levels step by one, processed nodes carry their network calls, last flags point at the final span entry, and registered starts are processed |
| TraceInvariant.MarkKeepsInv | src/components/TraceView.tsx:110-127 | marking a node keeps the builder invariant and changes no children list |
| TraceInvariant.PushKeepsInv | src/components/TraceView.tsx:137-139 | pushing a processed node that is nobody's child yet, one level down and flagged last only if it is the final span entry, keeps the builder invariant |
| TraceBuildProof.BuildNodeInv | src/components/TraceView.tsx:104-144 | `buildNodeTree` keeps the invariant; every node it newly processes, except the node itself, becomes somebody's child, and has all its span entries processed |
| TraceBuildProof.BuildChildrenInv | src/components/TraceView.tsx:130-143 | the child loop keeps the invariant and leaves every later span entry that has a node processed |
| TraceOrderProof.Ids | src/components/TraceView.tsx:133 | the ids of a list of events, position by position |
| TraceOrderProof.BuildNodeOrder | src/components/TraceView.tsx:104-144 | after `buildNodeTree` every children list is a subsequence of the ids of its node's span list |
| TraceOrderProof.BuildChildrenOrder | src/components/TraceView.tsx:133-142 | the child loop pushes children in span-list order |
| TraceRootProof.CandidateIds | src/components/TraceView.tsx:168-173 | the ids of the root candidates (not NETWORK_CALL, and with no truthy parent span id that is an event id), in sorted order, including every candidate |
| TraceRootProof.RootStepInv | src/components/TraceView.tsx:166-178 | one root step keeps the root invariant: distinct roots at level 0 that are nobody's children, every processed node a root or a child, every candidate so far processed, roots a subsequence of the candidates |
| TraceRootProof.RootPassInv | src/components/TraceView.tsx:165-179 | the root pass keeps the root invariant to the end |
| TraceTheorem.EndLinkIdle | src/components/TraceView.tsx:146-162 | with an empty tool-call map the end pass returns the state unchanged (every node, every children list and the processed set) |
| TraceTheorem.InitialRootInv | src/components/TraceView.tsx:101-102 | the state before the root pass satisfies the root invariant |
| TraceTheorem.ReachedIsProcessed | src/components/TraceView.tsx:104-179 | after the root pass a node is a root or a child exactly when it was processed |
| TraceTheorem.ForestShape | src/components/TraceView.tsx:104-179 | the forest has distinct roots, no id twice, children one level below their parent, roots at level 0 and nobody's child, and the last-flag rules |
| TraceTheorem.ForestCandidates | src/components/TraceView.tsx:165-179 | the roots are candidates in sorted order and every candidate ends as a root or a child |
| TraceTheorem.ForestContents | src/components/TraceView.tsx:115-143 | children lists follow span-list order, the span entries of reached nodes are reached, and reached nodes carry the network calls of their truthy tool-call id |
| TraceTheorem.TraceTreeInv | src/components/TraceView.tsx:51-182 | the whole builder ends in a state satisfying the root invariant, with the end pass changing nothing |
| TraceFlagProof.MarkKeepsFlags | src/components/TraceView.tsx:104-127 | marking an unprocessed node keeps every child named only by its parent's final span entry flagged last |
| TraceFlagProof.PushKeepsFlags | src/components/TraceView.tsx:136-138 | pushing the span entry at index `i`, flagged exactly when `i` is the final index, keeps that converse |
| TraceFlagProof.BuildNodeFlags | src/components/TraceView.tsx:104-144 | `buildNodeTree` keeps that converse |
| TraceFlagProof.BuildChildrenFlags | src/components/TraceView.tsx:130-142 | the child loop keeps that converse |
| TraceFlagProof.RootStepFlags | src/components/TraceView.tsx:166-178 | a root after the first that only the final sorted event names is flagged last, and stays so |
| TraceFlagProof.RootPassFlags | src/components/TraceView.tsx:165-179 | the root pass keeps the converse for children and for later roots |
| TraceTheorem.TraceTreeFlags | src/components/TraceView.tsx:136-138 | in the built forest, a child named only by the final entry of its parent's span list is flagged last, and so is a later root named only by the final sorted event |
| TraceTheorem.TraceTreeShape | src/components/TraceView.tsx:51-182 | the built forest: one node per event id, no id twice, roots at level 0 in sorted candidate order, children one level down in span-list order, every candidate reached, nodes outside the forest childless, span lists closed, network calls per node; a child or later root is flagged last only as the final span entry or final sorted event, and, for an id no earlier entry has, exactly then |
| TraceBuilder.TableStep | src/components/TraceView.tsx:71-74 | filing one more event gives the table of the longer prefix |
| TraceBuilder.NodesStep | src/components/TraceView.tsx:89 | setting one more node gives the event-id map of the longer prefix |
| TraceBuilder.FileNetworkCall | src/components/TraceView.tsx:68-75 | one iteration of the first pass: an event is appended to its key's list, created if missing, or the table is unchanged |
| TraceBuilder.CollectNetworkCalls | src/components/TraceView.tsx:67-77 | the first pass builds exactly the network-call table |
| TraceBuilder.FileNode | src/components/TraceView.tsx:81-97 | one iteration of the second pass: a fresh node is set under the event id, and the event is filed under its truthy parent span id |
| TraceBuilder.CollectNodes | src/components/TraceView.tsx:80-98 | the second pass builds exactly the event-id map and the children table |
| TraceBuilder.ChildVisit | src/components/TraceView.tsx:133-141 | one visit of the child loop keeps the node keys and only adds processed marks |
| TraceBuilder.ChildrenStep | src/components/TraceView.tsx:133-142 | the child loop from one entry is one visit followed by the loop from the next entry |
| TraceBuilder.TreeBuilder.constructor | src/components/TraceView.tsx:101-102 | the builder starts with the given tables and nodes, an empty tool-call map and nothing processed |
| TraceBuilder.TreeBuilder.BuildNodeTree | src/components/TraceView.tsx:104-144 | the in-place `buildNodeTree` leaves the fields as `TraceSpec.BuildNode` says |
| TraceBuilder.TreeBuilder.MarkNode | src/components/TraceView.tsx:110-127 | the in-place entry updates leave the fields as `TraceSpec.Mark` says |
| TraceBuilder.TreeBuilder.BuildChildNodes | src/components/TraceView.tsx:130-143 | the in-place `forEach` over a span list leaves the fields as `TraceSpec.BuildChildren` says |
| TraceBuilder.TreeBuilder.VisitChild | src/components/TraceView.tsx:134-141 | one in-place child visit leaves the fields as `TraceBuilder.ChildVisit` says |
| TraceBuilder.TreeBuilder.LinkToolCallEnds | src/components/TraceView.tsx:147-162 | the in-place end pass leaves the fields as `TraceSpec.EndLinkPass` says |
| TraceBuilder.TreeBuilder.VisitEnd | src/components/TraceView.tsx:148-161 | one in-place end step leaves the fields as `TraceSpec.EndLinkStep` says |
| TraceBuilder.TreeBuilder.BuildRoots | src/components/TraceView.tsx:165-179 | the in-place root pass returns the roots and leaves the fields as `TraceSpec.RootPass` says |
| TraceBuilder.TreeBuilder.VisitRoot | src/components/TraceView.tsx:166-178 | one in-place root step as `TraceSpec.RootStep` says |
| TraceBuilder.BuildHierarchicalTree | src/components/TraceView.tsx:51-182 | the imperative builder returns exactly the forest of `TraceSpec.TraceTree`, so `TraceTheorem.TraceTreeShape` holds of it |
| TraceExamples.ToolCallExample | src/components/TraceView.tsx:51-182 | start, network call and end with one tool-call id give two roots, the start and the end (the end is not linked under the start), both at level 0, flagged last, carrying the network call |
| TraceExamples.SpanCycleExample | src/components/TraceView.tsx:104-179 | two events whose spans name each other as parent give one root with the other as its only child, level 1 and flagged last |
| TraceExamples.DuplicateLastKidUnflagged | src/components/TraceView.tsx:132-140 | a span list of two entries with one event id pushes that id once, built from the first entry and not flagged last, although it is the final entry's id |
| TraceExamples.DuplicateIdExample | src/components/TraceView.tsx:51-182 | the builder on a parent and two span children that share one event id gives one root whose only child is that id, the final span entry's id, yet not flagged last |
| TraceBadge.Matches | src/components/TraceView.tsx:19-35 | the test of each category: the `includes` tests of AGENT, TOOL, HTTP, LLM and CHAIN, the exact HUMAN_EDIT test, and a test every type passes for the EVENT fallback |
| TraceBadge.CategoryOf | src/components/TraceView.tsx:19-37 | the category chosen passes its test, and no category of higher priority does |
| TraceBadge.BadgeFor | src/components/TraceView.tsx:20-37 | each label (AGENT, TOOL, HTTP, LLM, CHAIN, EDIT, EVENT) belongs to exactly one category |
| TraceBadge.GetEventTypeBadge | src/components/TraceView.tsx:18-38 | the badge is that of a category whose test the type passes while failing the test of every earlier category; each label is given exactly when the type passes its category's test and fails all earlier ones |
| TraceBadge.LabelsDistinct | src/components/TraceView.tsx:20-37 | distinct categories have distinct labels |
| TraceBadge.CategoryIsFirstMatch | src/components/TraceView.tsx:18-38 | a category is chosen exactly when its test passes and no test of higher priority does (order AGENT, TOOL, HTTP, LLM, CHAIN, EDIT, EVENT) |
| TraceBadge.DottedNamesClassified | src/components/TraceView.tsx:19-24 | "agent.run.start" is AGENT and "tool.call.start" is TOOL |
| TraceBadge.LegacyNamesClassified | src/components/TraceView.tsx:19-24 | AGENT_START is AGENT; TOOL_CALL_START and TOOL_CALL_END are TOOL |
| TraceBadge.NetworkCallClassified | src/components/TraceView.tsx:25-27 | NETWORK_CALL is HTTP |
| TraceBadge.HumanEditExact | src/components/TraceView.tsx:34-37 | HUMAN_EDIT is EDIT, but HUMAN_EDIT_V2 falls back to EVENT |
| TraceBadge.NoSubstringCategory | src/components/TraceView.tsx:19-33 | a type made only of the letters of HUMAN_EDIT_V2 passes none of the substring tests |
| TraceBadge.CompositeTypesResolveByPriority | src/components/TraceView.tsx:19-24 | a type containing agent.run.start is AGENT whatever else it contains; one containing TOOL_CALL and no agent start is TOOL |
| TraceItem.FirstTruthy | src/components/TraceView.tsx:209-214 | the result is the first truthy candidate, or the fallback when none is truthy |
| TraceItem.DisplayName | src/components/TraceView.tsx:209-214 | the name is the event type or a truthy name field |
| TraceItem.DisplayNamePrecedence | src/components/TraceView.tsx:209-214 | tool name, then step name, model, agent name, chain type, then the event type, each taken when all earlier ones are falsy |
| TraceItem.DisplayNameNonEmpty | src/components/TraceView.tsx:209-214 | the name is never empty when the type is not |
| TraceItem.TokenTotal | src/components/TraceView.tsx:199-202 | a truthy total is used as is; else the sum of prompt and completion tokens when both are truthy; else nothing |
| TraceItem.TokenMetricOf | src/components/TraceView.tsx:317-324 | nothing is shown when there is no token figure, a bare "0" exactly when the figure is 0; otherwise prompt and completion side by side when both are present, else the figure |
| TraceItem.TokenMetricShown | src/components/TraceView.tsx:199-202 | with non-negative counts the bare "0" never shows, the metric appears exactly when a total or both halves are truthy, and a total is shown when a half is missing |
| TraceItem.CancellingHalvesShowZero | src/components/TraceView.tsx:199-202 | without a truthy total, non-zero prompt and completion counts that cancel out show a bare "0" |
| TraceItem.StatusColourOf | src/components/TraceView.tsx:419-423 | green exactly for 200-299, red exactly from 400 up |
| TraceItem.StatusMetric | src/components/TraceView.tsx:417-427 | nothing is shown exactly when the code is missing, a bare uncoloured "0" exactly when it is 0, and otherwise the code in the colour of its band |
| TraceItem.AmberBand | src/components/TraceView.tsx:419-423 | amber exactly below 200 and for 300-399 |
| TraceItem.StatusColourMonotone | src/components/TraceView.tsx:419-423 | raising a code never turns red back, and from 300 up it is never green |
| EventCard.GetEventTypeBadgeClass | src/components/EventCard.tsx:15-21 | error exactly when the type contains ERROR; warning exactly for HUMAN_EDIT; success only for a START type with no TOOL_CALL |
| EventCard.HumanEditHasNoMarker | src/components/EventCard.tsx:16-18 | HUMAN_EDIT contains neither ERROR nor TOOL_CALL, so its exact test is reached |
| EventCard.ErrorBeforeToolCallBeforeStart | src/components/EventCard.tsx:16-17 | an ERROR type is an error whatever else it contains; a TOOL_CALL type without ERROR is info |
| EventCard.SuccessAndDefault | src/components/EventCard.tsx:19-20 | success exactly for a START type with no ERROR, no TOOL_CALL and not HUMAN_EDIT; info exactly for the rest that is neither error nor warning |
| EventCard.StartTypesClassified | src/components/EventCard.tsx:17-19 | TOOL_CALL_START is info, AGENT_START is success |
| EventCard.RenderEventContent | src/components/EventCard.tsx:24-124 | the raw-data block exactly for types outside the five listed legacy names; the tool block exactly for TOOL_CALL_START and TOOL_CALL_END; the diff exactly for HUMAN_EDIT, the step block exactly for AGENT_STEP, the network block exactly for NETWORK_CALL |
| EventCard.DottedNamesShowRawData | src/components/EventCard.tsx:116-123 | dotted type names fall to the raw-data block |
| EventCard.CardHeader | src/components/EventCard.tsx:132-139 | the header carries the badge class and the type; the sequence number is shown exactly when it is not null, also when it is 0 |
| RunTimeline.OfType | src/components/RunTimeline.tsx:37 | the events of one type form an order-preserving subsequence, all of that type |
| RunTimeline.OfTypeMembers | src/components/RunTimeline.tsx:37 | they are exactly the events of that type |
| RunTimeline.FilteredEvents | src/components/RunTimeline.tsx:36-38 | an empty filter gives the events unchanged; a non-empty one the order-preserving subsequence of the events of exactly that type, each as many times as in the run |
| RunTimeline.TypeCount | src/components/RunTimeline.tsx:90 | the count is the number of positions of the run holding an event of the type: at most the total, and zero exactly when no event has the type |
| RunTimeline.OfTypeCounts | src/components/RunTimeline.tsx:37 | the events of one type hold each event of that type as many times as the run does, and no other event |
| RunTimeline.OfTypeAtPositions | src/components/RunTimeline.tsx:90 | the number of events of one type is the number of positions holding that type |
| RunTimeline.UniqueEventTypes | src/components/RunTimeline.tsx:40 | no duplicates, every event's type, and nothing else |
| RunTimeline.UniqueTypesPrefix | src/components/RunTimeline.tsx:40 | the distinct types of a prefix are a prefix of the distinct types, so they keep first-occurrence order |
| RunTimeline.CountsSumToTotal | src/components/RunTimeline.tsx:87-90 | the per-type counts over the distinct types sum to the "All Events" total |
| RunTimeline.SumAfterAppend | src/components/RunTimeline.tsx:90 | one more event raises the sum of the counts by one exactly when its type is listed |
| RunTimeline.FilterMenu | src/components/RunTimeline.tsx:87-92 | the menu is "All Events" with the total, then each distinct type in order with its count |
| RunTimeline.TypeOptions | src/components/RunTimeline.tsx:88-92 | one option per listed type, with that type's count |
| RunTimeline.MenuCountsMatchCards | src/components/RunTimeline.tsx:36-40 | the count an option shows is the number of cards that selecting it displays |
| RunTimeline.Body | src/components/RunTimeline.tsx:97-110 | the notice exactly when the filtered list is empty, otherwise one card per filtered event, in order |
| RunTimeline.NoticeExactlyWhenNothingMatches | src/components/RunTimeline.tsx:97-100 | a filter no event has shows the notice; a distinct type never does; with no filter the notice shows exactly for a run without events |
| RunsList.EventTypeBadges | src/components/RunsList.tsx:122-130 | at most three badges, the first types in order; the overflow badge exactly when there are more than three, showing the number left; a missing list shows nothing |
| RunsList.BadgesAccountForAll | src/components/RunsList.tsx:122-130 | the shown types followed by the hidden ones are the whole list, and the overflow number counts the hidden ones |
| RunsList.EmptyAndMissingAlike | src/components/RunsList.tsx:122-127 | an empty list renders like a missing one |
| RunsList.HashLabel | src/components/RunsList.tsx:114 | the label is the first 12 characters of the hash (or all of a shorter hash) followed by "..." |
| RunsList.HashLabelsCollide | src/components/RunsList.tsx:114 | two hashes get the same label exactly when their 12-character prefixes agree |

## Left out

- The browser's sort algorithm is replaced by a stable insertion sort with the source's comparator, which mixes the sequence-number and timestamp keys. For lists that mix events with and without a sequence number, the comparator is not a consistent order (TraceSort.MixedComparisonCycles), so nothing is claimed about the order of such lists beyond the permutation.
- TraceSort.SortedWhenUniform: ordering and stability (TraceSort.SortIsStable) are proved only for lists where all events have a sequence number, or none do, for the reason above.
- `new Date(...).getTime()` and date formatting: timestamps are integers already in milliseconds, and the date text is not modelled.
- `formatDuration`, `formatTokens` (`toFixed`, `toLocaleString`) and `JSON.stringify` pretty-printing: number and text formatting of the host platform.
- Loading, error and retry state, the API client and routing (`loadRuns`, `loadTimeline`, src/api.ts, src/App.tsx): asynchronous I/O.
- React state (expand/collapse, selection, the auto-select effect) and the connector-line geometry of the trace item: user-interface state, not logic.
- src/components/HumanEditDiff.tsx and src/components/UserStats.tsx display values from the backend; they are not part of this model.
- `null` and `undefined` are one `None`.
- NaN and non-integer numbers are not modelled.
- Strings are sequences of characters; UTF-16 code units are not distinguished.
- Node objects are identified by their event id. Two events with one id share one node in the source too, because the map keeps the later node. Object identity is otherwise not modelled.
- `sortedEvents.indexOf(event)` in the root pass is modelled by the loop position. The two agree because the loop visits each array element at its own position; for an event object that occurs twice, `indexOf` would return the first position.
- The end pass's `children.some(c => c.event.event_id === id)` is modelled as membership of the id in the children list, which is the same test on ids.
- TraceTheorem.TraceTreeShape: the roots are stated as an order-preserving subsequence of the root candidates, with every candidate ending as a root or a child. Which candidates become roots depends on the state at each candidate's turn; that rule is stated step by step by TraceSpec.RootStep, not as a closed form.
- TraceTheorem.TraceTreeShape: each children list is stated as a subsequence of its node's span list, with every span entry that has a node ending reached. Which entries are pushed depends on what was processed at their turn; that rule is stated by TraceSpec.BuildChildren.
- RunTimeline's `<select>` element and its change handler are not modelled; the filter value is a parameter.
