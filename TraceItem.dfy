/** The selections one row of the trace tree makes from its event
    (`TraceItem`, src/components/TraceView.tsx): the name shown, the token
    figure and the colour of a network call's HTTP status. */
module TraceItem {
  import opened Types

  /** The value of the first truthy candidate, or `fallback` when none is:
      the meaning of a chain `a || b || ... || fallback` over strings. */
  function FirstTruthy(candidates: seq<Option<string>>, fallback: string): (r: string)
    ensures forall i :: 0 <= i < |candidates| && Truthy(candidates[i]) &&
                        (forall j :: 0 <= j < i ==> !Truthy(candidates[j]))
                        ==> r == candidates[i].value
    ensures (forall i :: 0 <= i < |candidates| ==> !Truthy(candidates[i])) ==> r == fallback
    ensures r == fallback || exists i :: 0 <= i < |candidates| && Truthy(candidates[i]) && r == candidates[i].value
  {
    if candidates == [] then fallback
    else if Truthy(candidates[0]) then candidates[0].value
    else
      var r := FirstTruthy(candidates[1..], fallback);
      assert forall i :: 1 <= i < |candidates| ==> candidates[i] == candidates[1..][i - 1];
      r
  }

  /** The fields tried for a row's name, in the order they are tried. */
  function NameCandidates(d: EventData): seq<Option<string>> {
    [d.toolName, d.stepName, d.model, d.agentName, d.chainType]
  }

  /** The row's name: tool name, step name, model, agent name, chain type,
      the first of them that is truthy, or else the event type. */
  function DisplayName(e: Event): (name: string)
    ensures name == e.eventType || exists i :: 0 <= i < 5 && Truthy(NameCandidates(e.data)[i]) && name == NameCandidates(e.data)[i].value
  {
    FirstTruthy(NameCandidates(e.data), e.eventType)
  }

  /** The precedence of the name fields: a truthy field hides every field
      after it and the event type; the event type shows only when no field
      is truthy. */
  lemma DisplayNamePrecedence(e: Event)
    ensures Truthy(e.data.toolName) ==> DisplayName(e) == e.data.toolName.value
    ensures !Truthy(e.data.toolName) && Truthy(e.data.stepName) ==> DisplayName(e) == e.data.stepName.value
    ensures !Truthy(e.data.toolName) && !Truthy(e.data.stepName) && Truthy(e.data.model)
            ==> DisplayName(e) == e.data.model.value
    ensures (!Truthy(e.data.toolName) && !Truthy(e.data.stepName) && !Truthy(e.data.model) &&
             Truthy(e.data.agentName)) ==> DisplayName(e) == e.data.agentName.value
    ensures (!Truthy(e.data.toolName) && !Truthy(e.data.stepName) && !Truthy(e.data.model) &&
             !Truthy(e.data.agentName) && Truthy(e.data.chainType)) ==> DisplayName(e) == e.data.chainType.value
    ensures (!Truthy(e.data.toolName) && !Truthy(e.data.stepName) && !Truthy(e.data.model) &&
             !Truthy(e.data.agentName) && !Truthy(e.data.chainType)) ==> DisplayName(e) == e.eventType
  {
    var cs := NameCandidates(e.data);
    assert cs[0] == e.data.toolName && cs[1] == e.data.stepName && cs[2] == e.data.model;
    assert cs[3] == e.data.agentName && cs[4] == e.data.chainType;
  }

  /** A row's name is empty only when its event type is empty and no name
      field is set: an empty field never wins. */
  lemma DisplayNameNonEmpty(e: Event)
    requires e.eventType != ""
    ensures DisplayName(e) != ""
  {
  }

  /** The token figure: `total_tokens` when truthy, else the sum of prompt and
      completion tokens when both are truthy, else nothing. */
  function TokenTotal(d: EventData): (r: Option<int>)
    ensures TruthyNum(d.totalTokens) ==> r == d.totalTokens
    ensures r.Some? && !TruthyNum(d.totalTokens) ==>
            TruthyNum(d.promptTokens) && TruthyNum(d.completionTokens) &&
            r.value == d.promptTokens.value + d.completionTokens.value
    ensures r.None? <==> !TruthyNum(d.totalTokens) && !(TruthyNum(d.promptTokens) && TruthyNum(d.completionTokens))
  {
    if TruthyNum(d.totalTokens) then d.totalTokens
    else if TruthyNum(d.promptTokens) && TruthyNum(d.completionTokens)
    then Some(d.promptTokens.value + d.completionTokens.value)
    else None
  }

  /** What the token metric of a row shows: nothing, a bare "0" (React
      renders the falsy number of `{0 && …}` as text), the prompt and
      completion counts side by side, or the single total. */
  datatype TokenMetric = NoTokens | ZeroTokens | PromptToCompletion(prompt: int, completion: int) | Total(tokens: int)

  /** The metric is shown when the token figure is truthy; it is the pair
      whenever both prompt and completion counts are present (even zero),
      otherwise the figure itself. A figure of 0, which only two truthy
      halves summing to zero give, shows as a bare "0". */
  function TokenMetricOf(d: EventData): (m: TokenMetric)
    ensures m.NoTokens? <==> TokenTotal(d).None?
    ensures m.ZeroTokens? <==> TokenTotal(d) == Some(0)
    ensures m.PromptToCompletion? ==> TruthyNum(TokenTotal(d)) && d.promptTokens == Some(m.prompt) && d.completionTokens == Some(m.completion)
    ensures m.Total? ==> TruthyNum(TokenTotal(d)) && Some(m.tokens) == TokenTotal(d) && (d.promptTokens.None? || d.completionTokens.None?)
  {
    var total := TokenTotal(d);
    if total.None? then NoTokens
    else if total.value == 0 then ZeroTokens
    else if d.promptTokens.Some? && d.completionTokens.Some?
    then PromptToCompletion(d.promptTokens.value, d.completionTokens.value)
    else Total(total.value)
  }

  /** With non-negative counts the bare "0" never shows, the metric appears
      exactly when a total or both halves are truthy, and a given total is
      shown in preference to the sum. */
  lemma TokenMetricShown(d: EventData)
    requires forall n :: n in [d.totalTokens, d.promptTokens, d.completionTokens] && n.Some? ==> n.value >= 0
    ensures !TokenMetricOf(d).ZeroTokens?
    ensures !TokenMetricOf(d).NoTokens? <==>
            TruthyNum(d.totalTokens) || (TruthyNum(d.promptTokens) && TruthyNum(d.completionTokens))
    ensures TruthyNum(d.totalTokens) && (d.promptTokens.None? || d.completionTokens.None?)
            ==> TokenMetricOf(d) == Total(d.totalTokens.value)
  {
    assert d.promptTokens in [d.totalTokens, d.promptTokens, d.completionTokens];
    assert d.completionTokens in [d.totalTokens, d.promptTokens, d.completionTokens];
  }

  /** Halves that cancel out show the bare "0", whatever their sizes. */
  lemma CancellingHalvesShowZero(d: EventData, p: int)
    requires !TruthyNum(d.totalTokens) && p != 0
    requires d.promptTokens == Some(p) && d.completionTokens == Some(-p)
    ensures TokenMetricOf(d) == ZeroTokens
  {
  }

  /** The colour of a network call's status code. */
  datatype StatusColour = Green | Red | Amber

  function ColourCode(c: StatusColour): string {
    match c
    case Green => "#10b981"
    case Red => "#ef4444"
    case Amber => "#f59e0b"
  }

  /** Success codes are green, codes from 400 up are red, the rest amber. */
  function StatusColourOf(code: int): (c: StatusColour)
    ensures c == Green <==> 200 <= code < 300
    ensures c == Red <==> code >= 400
  {
    if 200 <= code && code < 300 then Green
    else if code >= 400 then Red
    else Amber
  }

  /** What the status metric of a network-call row shows: nothing for a
      missing code, a bare uncoloured "0" for a code of 0 (React renders the
      falsy number of `{0 && …}` as text), otherwise the code in its colour. */
  datatype StatusShown = NoStatus | ZeroStatus | Coloured(colour: StatusColour)

  function StatusMetric(d: EventData): (m: StatusShown)
    ensures m.NoStatus? <==> d.statusCode.None?
    ensures m.ZeroStatus? <==> d.statusCode == Some(0)
    ensures m.Coloured? <==> TruthyNum(d.statusCode)
    ensures m.Coloured? ==> m.colour == StatusColourOf(d.statusCode.value)
  {
    if d.statusCode.None? then NoStatus
    else if d.statusCode.value == 0 then ZeroStatus
    else Coloured(StatusColourOf(d.statusCode.value))
  }

  /** The amber band is everything that is neither 2xx nor at least 400:
      informational codes, redirects, and whatever else below 200. */
  lemma AmberBand(code: int)
    ensures StatusColourOf(code) == Amber <==> code < 200 || (300 <= code < 400)
  {
  }

  /** The colour never gets better as the code crosses 300 and 400: every
      code at or above a red code is red, and no code between 300 and 399
      is green. */
  lemma StatusColourMonotone(a: int, b: int)
    requires a <= b
    ensures StatusColourOf(a) == Red ==> StatusColourOf(b) == Red
    ensures 300 <= a ==> StatusColourOf(b) != Green
  {
  }
}
