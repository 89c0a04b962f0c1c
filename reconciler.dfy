/** The output reconciler `parse_agent_output`: turns what a stage returned into a
    structured value, the no-results sentinel, or plain text. It never fails.
    `json.loads` is the parameter `loads`, which answers `None` where Python raises. */
module Reconciler {
  import opened Values
  import opened Text

  /** An attribute of the stage's output object: missing, a property whose read raises,
      or present with a value. */
  datatype Attr<T> = Absent | Raises | Present(value: T)

  /** A stage's output object: its `.json` and `.raw` attributes and what `str()` gives for it. */
  datatype TaskOutput = TaskOutput(json: Attr<Value>, raw: Attr<string>, text: string)

  /** The phrase a stage uses to report that it found nothing. */
  const NoResults: string := "No matching scholarships found"

  /** `.json` is there and truthy, so it is returned as it is. */
  predicate HasPayload(t: TaskOutput)
  {
    t.json.Present? && Truthy(t.json.value)
  }

  /** Reading the `.json` or `.raw` attribute raised before any text was looked at. */
  predicate ReadRaises(t: TaskOutput)
  {
    t.json.Raises? || (!HasPayload(t) && t.raw.Raises?)
  }

  /** The text that is searched: a non-empty `.raw`, else `str(task_output)`. */
  function OutputText(t: TaskOutput): (text: string)
    ensures t.raw.Present? && t.raw.value != "" ==> text == t.raw.value
    ensures !(t.raw.Present? && t.raw.value != "") ==> text == t.text
  {
    if t.raw.Present? && t.raw.value != "" then t.raw.value else t.text
  }

  /** The `except` branch returns `str(task_output).strip()`, not the searched text. */
  function Fallback(t: TaskOutput): Value
  {
    Str(Strip(t.text))
  }

  /** The parsed candidate, or the `except` fallback when `json.loads` raised. */
  function ParsedOr(parsed: Option<Value>, t: TaskOutput): Value
  {
    match parsed
    case Some(v) => v
    case None => Fallback(t)
  }

  /** The bracket text handed to `json.loads`: the `[...]` span when there is one, else the
      `{...}` span, else nothing. */
  function Candidate(text: string): (c: Option<string>)
    ensures c.Some? ==> IsInfix(c.value, text) && |c.value| >= 2
    ensures c.Some? ==> (c.value[0] == '[' && c.value[|c.value| - 1] == ']')
                        || (c.value[0] == '{' && c.value[|c.value| - 1] == '}')
    ensures BracketSpan(text, '[', ']').Some? ==>
              c == Some(text[BracketSpan(text, '[', ']').value.0..BracketSpan(text, '[', ']').value.1])
    ensures BracketSpan(text, '[', ']').None? && BracketSpan(text, '{', '}').Some? ==>
              c == Some(text[BracketSpan(text, '{', '}').value.0..BracketSpan(text, '{', '}').value.1])
    ensures c.None? <==> BracketSpan(text, '[', ']').None? && BracketSpan(text, '{', '}').None?
  {
    match BracketSpan(text, '[', ']')
    case Some((i, e)) =>
      BracketSpanBounds(text, '[', ']');
      assert OccursAt(text, text[i..e], i);
      Some(text[i..e])
    case None =>
      match BracketSpan(text, '{', '}')
      case Some((i, e)) =>
        BracketSpanBounds(text, '{', '}');
        assert OccursAt(text, text[i..e], i);
        Some(text[i..e])
      case None => None
  }

  function ParseAgentOutput(t: TaskOutput, loads: string -> Option<Value>): Value
  {
    if t.json.Raises? then Fallback(t)
    else if HasPayload(t) then t.json.value
    else if t.raw.Raises? then Fallback(t)
    else
      var text := OutputText(t);
      if Contains(text, NoResults) then Str(NoResults)
      else match Candidate(text)
        case Some(c) => ParsedOr(loads(c), t)
        case None => Str(Strip(text))
  }

  /** The result is always one of five things. */
  lemma ParseAgentOutputCases(t: TaskOutput, loads: string -> Option<Value>)
    ensures var r := ParseAgentOutput(t, loads);
            || (HasPayload(t) && r == t.json.value)
            || r == Str(NoResults)
            || (Candidate(OutputText(t)).Some? && loads(Candidate(OutputText(t)).value) == Some(r))
            || r == Str(Strip(OutputText(t)))
            || r == Str(Strip(t.text))
  {
    if !t.json.Raises? && !HasPayload(t) && !t.raw.Raises? && !Contains(OutputText(t), NoResults) {
      var c := Candidate(OutputText(t));
      if c.Some? && loads(c.value).Some? {
        assert ParseAgentOutput(t, loads) == loads(c.value).value;
      }
    }
  }

  /** A truthy `.json` short-circuits every other rule. */
  lemma PayloadFirst(t: TaskOutput, loads: string -> Option<Value>)
    requires HasPayload(t)
    ensures ParseAgentOutput(t, loads) == t.json.value
  {
  }

  /** When reading an attribute raises, the result is `str(task_output).strip()`. */
  lemma ReadFailureFallsBack(t: TaskOutput, loads: string -> Option<Value>)
    requires ReadRaises(t)
    ensures ParseAgentOutput(t, loads) == Str(Strip(t.text))
  {
  }

  /** The sentinel anywhere in the text wins over any array or object in it. */
  lemma SentinelWins(t: TaskOutput, loads: string -> Option<Value>, a: nat)
    requires !HasPayload(t) && !ReadRaises(t)
    requires OccursAt(OutputText(t), NoResults, a)
    ensures ParseAgentOutput(t, loads) == Str(NoResults)
  {
    ContainsSpec(OutputText(t), NoResults);
  }

  /** The leftmost-longest `[...]` match is the one handed to `json.loads`, whatever else
      the text holds. */
  lemma ArrayCandidateParsed(t: TaskOutput, loads: string -> Option<Value>, i: nat, e: nat, v: Value)
    requires !HasPayload(t) && !ReadRaises(t) && !Contains(OutputText(t), NoResults)
    requires IsSearchResult(OutputText(t), '[', ']', i, e)
    requires loads(OutputText(t)[i..e]) == Some(v)
    ensures ParseAgentOutput(t, loads) == v
  {
    SearchResultIsSpan(OutputText(t), '[', ']', i, e);
  }

  /** When the array candidate does not parse, the object candidate is not tried: the result
      is `str(task_output).strip()`. */
  lemma FailedArrayParseSkipsObject(t: TaskOutput, loads: string -> Option<Value>, i: nat, e: nat)
    requires !HasPayload(t) && !ReadRaises(t) && !Contains(OutputText(t), NoResults)
    requires IsSearchResult(OutputText(t), '[', ']', i, e)
    requires loads(OutputText(t)[i..e]).None?
    ensures ParseAgentOutput(t, loads) == Str(Strip(t.text))
  {
    SearchResultIsSpan(OutputText(t), '[', ']', i, e);
  }

  /** The `{...}` candidate is considered only when no `[...]` match exists. */
  lemma ObjectOnlyWithoutArray(t: TaskOutput, loads: string -> Option<Value>, i: nat, e: nat)
    requires !HasPayload(t) && !ReadRaises(t) && !Contains(OutputText(t), NoResults)
    requires forall i': nat, e': nat :: !SpanMatches(OutputText(t), '[', ']', i', e')
    requires IsSearchResult(OutputText(t), '{', '}', i, e)
    ensures ParseAgentOutput(t, loads) == ParsedOr(loads(OutputText(t)[i..e]), t)
  {
    BracketSpanIsSearch(OutputText(t), '[', ']');
    SearchResultIsSpan(OutputText(t), '{', '}', i, e);
  }

  /** With no bracket match of either kind, the result is the searched text, stripped. */
  lemma NarrativeWithoutSpan(t: TaskOutput, loads: string -> Option<Value>)
    requires !HasPayload(t) && !ReadRaises(t) && !Contains(OutputText(t), NoResults)
    requires forall i: nat, e: nat :: !SpanMatches(OutputText(t), '[', ']', i, e)
    requires forall i: nat, e: nat :: !SpanMatches(OutputText(t), '{', '}', i, e)
    ensures ParseAgentOutput(t, loads) == Str(Strip(OutputText(t)))
  {
    BracketSpanIsSearch(OutputText(t), '[', ']');
    BracketSpanIsSearch(OutputText(t), '{', '}');
  }

  /** The leftmost-longest match is unique, so it is the span `BracketSpan` finds. */
  lemma SearchResultIsSpan(s: string, open: char, close: char, i: nat, e: nat)
    requires IsSearchResult(s, open, close, i, e)
    ensures BracketSpan(s, open, close) == Some((i, e))
  {
    BracketSpanIsSearch(s, open, close);
    var (i', e') := BracketSpan(s, open, close).value;
    assert i <= i' && i' <= i;
  }
}
