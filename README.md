# Academic course recommender: a verified model of its core logic

The recommender collects a student's profile. It then runs five agent stages on it:
normalizer, course matcher, course specialist, scholarship finder and reviews collector.
Each stage's output is reconciled into JSON.

This project models the recommender's own logic in Dafny: the code that decides what is
stored, what runs next and what a stage's answer becomes. The LLM, the agents, `input()`,
the file system and `json.loads` are all parameters (oracles).

Web front end (`app.py`):

- `Reconciler` (`reconciler.dfy`): `parse_agent_output`. The `.json` payload wins first, then
  the "No matching scholarships found" sentinel. After that come the greedy `\[.*\]` span and
  the `{.*}` span, which are modelled exactly by first and last index. The last resort is the
  stripped text.
- `ProfileMerge` (`merge.dfy`): builds the profile at intake. It starts from the regex fields
  and adds the letter text. The extraction model's fields are merged in, each overriding only
  when it is not `None`, `""` or `[]`. Finally the raw text is added.
- `AppSession` (`session.dfy`): the session state as a class. `main`'s dispatch is a function.
  The key gate, profile submission, one stage step of `render_agent_execution`, Refine and
  Start New Search are methods. All of them preserve one invariant: either the stored
  results form a prefix ending at the cursor, or, after Refine, every slot is empty and the
  cursor stays at the end.

Console advisor (`mainn.py`):

- `Extraction` (`extract.dfy`): `extract_info_from_text`. The six single-field regexes are
  reduced to the span their capture group covers. The country `findall` is modelled
  concretely, together with `capitalize` and the dedup.
- `LocationCleaning` (`locations.dfy`): `clean_user_pref_locations`. This includes
  `re.split(r",|\band\b")` and `try_json_loads`.
- `Intake` (`intake.dfy`): `intake_agent`'s fill loop over the required fields, followed by
  the specialization and letter steps.
- `Advisor` (`advisor.dfy`): `run_conversational_advisor`. It covers the seeding, the loop
  that accepts allowed non-`None` fields, the next-question handling, the letter step, the
  locations cleaning and the final profile over the allowed keys.
- `LlmCall` (`llmcall.dfy`): the retry loop of `call_llm_flexible` over an abstract sequence
  of call outcomes.
- `Pipeline` (`pipeline.dfy`): the tasks' `context=` declarations and the crew's task order.
  It proves that every task reads only earlier tasks, so no task depends on itself.

Shared: `Values` (`values.dfy`, Python values, truthiness, `dict.get`) and `Text`
(`text.dfy`, `str.strip`, `in`, bracket spans).

When the array span's `json.loads` fails, `parse_agent_output` does not go on to the object
span. It returns `str(task_output).strip()` from its `except` branch
(`Reconciler.FailedArrayParseSkipsObject`).

## Model

| member | source | states |
|---|---|---|
| Values.Get | mainn.py:606-612 | `d.get(k)`: the entry when present, else `None` |
| Values.BlankIsFalsy | app.py:176-178 | the `(None, "", [])` test is stricter than falsiness: `False`, `0` and `{}` are falsy but not blank |
| Text.Strip | app.py:443-447 | `str.strip()`: never longer, and never begins or ends with whitespace |
| Text.StripSpec | app.py:443-447 | the stripped text is a contiguous piece of the input with only whitespace around it; it is empty exactly when the input is all whitespace |
| Text.StripIdempotent | app.py:443-447 | stripping twice is stripping once |
| Text.ContainsSpec | app.py:430-431 | `Text.Contains`, the `in` test, holds exactly when the phrase occurs at some index |
| Text.BracketSpan | app.py:434-441 | a span found covers at least two characters of the text |
| Text.BracketSpanIsSearch | app.py:434-441 | the computed span is the leftmost-longest DOTALL match of `\[.*\]` / `{.*}`; there is none exactly when no closing bracket follows the first opening one |
| Text.BracketSpanBounds | app.py:434-441 | the span starts at the first opening bracket and ends just after the last closing one |
| Reconciler.OutputText | app.py:426-428 | a present, non-empty `.raw` is the searched text; in every other case `str(task_output)` is |
| Reconciler.Candidate | app.py:434-441 | the text handed to `json.loads` is a piece of the searched text, at least two long, that begins with `[` and ends with `]`, or begins with `{` and ends with `}`. It is the leftmost-longest `[...]` span when there is one, and otherwise the `{...}` span; there is none exactly when neither exists |
| Reconciler.ParseAgentOutputCases | app.py:418-447 | `ParseAgentOutput`'s result is always one of: the payload, the sentinel, a parse of the candidate, the stripped searched text, or the stripped `str()` |
| Reconciler.PayloadFirst | app.py:423-424 | a truthy `.json` is returned before anything else is looked at |
| Reconciler.ReadFailureFallsBack | app.py:423-447 | when reading `.json` or `.raw` raises, the result is `str(task_output).strip()` |
| Reconciler.SentinelWins | app.py:430-431 | the sentinel anywhere in the text wins, even over a valid array |
| Reconciler.ArrayCandidateParsed | app.py:434-436 | the leftmost-longest `[...]` match is parsed and returned |
| Reconciler.FailedArrayParseSkipsObject | app.py:434-447 | a failed parse of the array span returns `str(task_output).strip()`; the object span is not tried |
| Reconciler.ObjectOnlyWithoutArray | app.py:438-441 | the `{...}` span is considered only when there is no `[...]` match |
| Reconciler.NarrativeWithoutSpan | app.py:443-444 | with no bracket match, the stripped text is returned |
| Reconciler.SearchResultIsSpan | app.py:434-441 | the leftmost-longest match is unique |
| ProfileMerge.MergeSpec | app.py:174-178 | keys are the regex keys plus the model's non-blank keys; non-blank model values win; every other key keeps its regex value |
| ProfileMerge.MergeLlmFields | app.py:176-178 | the `for k, v in llm_profile.items()` loop computes `MergeSpec` |
| ProfileMerge.MergeNoFabrication | app.py:176-178 | each merged value is a non-blank model value or the regex value for the same key |
| ProfileMerge.LlmProfile | app.py:154-181 | only a dictionary is merged: the reconciled output, or `json.loads` of a reconciled string |
| ProfileMerge.IntakeProfile | app.py:136-184 | every regex key survives, the letter key is present once a letter was read, and `raw_input_text` holds the typed text |
| ProfileMerge.BuildIntakeProfile | app.py:136-184 | the step-by-step build equals `IntakeProfile` |
| ProfileMerge.ProcessSubmission | app.py:132-185 | blank text is refused; otherwise the profile is `IntakeProfile` |
| ProfileMerge.RawInputAlwaysKept | app.py:184 | `raw_input_text` always holds the typed text |
| ProfileMerge.RegexFieldsKept | app.py:174-178 | a regex key the model left blank keeps its value and is never removed |
| ProfileMerge.LlmFieldsOverride | app.py:176-178 | every non-blank model field reaches the profile |
| ProfileMerge.IntakeNoFabrication | app.py:136-184 | every stored value is the raw text, the letter text, a regex value or a non-blank model value |
| ProfileMerge.NoDictNoMerge | app.py:154-181 | without a dictionary from the model, nothing is merged |
| AppSession.EmptyResults | app.py:38-45 | five empty result slots |
| AppSession.FirstNone | app.py:227-393 | the first empty slot; every earlier slot is filled |
| AppSession.NextStage | app.py:227-393 | the stage a run picks is the first empty slot at or below the cursor; all earlier slots hold results |
| AppSession.InputSlot | app.py:281-386 | every stage after the first reads an earlier slot |
| AppSession.Session.constructor | app.py:21-45 | the initial state: no keys, no profile, cursor 0, empty results, key screen |
| AppSession.Session.Dispatch | app.py:661-673 | the screen `main` shows, as an exact case split on the flags and the cursor |
| AppSession.Session.SaveKeys | app.py:82-90 | both keys non-empty: saved and moved on to the intake screen; otherwise nothing changes |
| AppSession.Session.SubmitProfile | app.py:132-189 | blank text is refused; otherwise the profile is `IntakeProfile` and the pipeline screen follows |
| AppSession.Session.Advance | app.py:192-403 | setup failure: nothing runs. Otherwise exactly the cursor's stage runs, with the input the wiring prescribes. Success stores the reconciled output and advances the cursor. Failure changes nothing and clears `processing` |
| AppSession.Session.Refine | app.py:629-642 | as written: non-blank feedback is stored stripped, all slots are emptied, the cursor stays, the results screen stays |
| AppSession.Session.RefineAndRerun | app.py:629-642 | corrected: as `Refine`, and the cursor returns to 0, so stage 0 runs next |
| AppSession.Session.NewSearch | app.py:646-658 | intake screen, empty profile and questions, cursor 0, empty results |
| AppSession.ResultsArePrefix | app.py:227-393 | a stored result implies every earlier stage's result is stored |
| AppSession.NextStageIsCursor | app.py:227-393 | on the pipeline screen the next stage is the cursor's, so a stored result is never recomputed |
| AppSession.StageInputsPrecede | app.py:211-386 | matcher and scholarship finder read the normalized profile, the specialist the matches, reviews the ranking |
| Extraction.LowerAllSpec | mainn.py:122 | ASCII `lower()` keeps the length and lowers each character |
| Extraction.Capitalize | mainn.py:122 | `capitalize()`: the same length, the first character upper case, every other lower case |
| Extraction.FirstAlternative | mainn.py:120-121 | the first country alternative matching case-insensitively at a position, in alternation order |
| Extraction.UsBeatsUsa | mainn.py:120-121 | `USA` never wins, because `US` is tried first |
| Extraction.FindAll | mainn.py:120-121 | every `findall` match is, case-insensitively, one of the reachable alternatives |
| Extraction.FindAllAtMatch | mainn.py:120-121 | an alternative matching at the scan position makes `findall` non-empty |
| Extraction.FindAllSkip | mainn.py:120-121 | where no alternative matches, the scan moves on by one character and finds the same |
| Extraction.FindAllNone | mainn.py:120-121 | with no alternative matching from a position on, nothing is found from there |
| Extraction.FindAllSome | mainn.py:120-121 | a match at any later position makes the scan find something |
| Extraction.FindAllEmptyIff | mainn.py:120-122 | no match exactly when no alternative matches at any position |
| Extraction.CapitalizedMatch | mainn.py:122 | `capitalize()` of a match is one of the reportable names |
| Extraction.Dedup | mainn.py:122 | `list(set(...))`: the same names, each once |
| Extraction.Locations | mainn.py:120-122 | names without duplicates, each a reportable country name |
| Extraction.LocationsAreMatches | mainn.py:120-122 | a name is stored exactly when it is `capitalize()` of some `findall` match |
| Extraction.LocationsFound | mainn.py:120-122 | some name is reported exactly when some alternative matches |
| Extraction.CapturedIsInfix | mainn.py:92-118 | a captured field value is a contiguous piece of the input |
| Extraction.RecordCapture | mainn.py:96-118 | a pattern's key is stored exactly when it matched, holding the stripped capture; nothing else changes |
| Extraction.ExtractCaptures | mainn.py:92-118 | each of the six keys is present exactly when its pattern matched, with its capture; no other key |
| Extraction.ExtractInfo | mainn.py:92-124 | as `ExtractCaptures`, plus `preferred_locations` present exactly when some country was found, holding the names |
| Extraction.UsaReadsAsUs | mainn.py:120-122 | "USA" yields `["Us"]` |
| Extraction.NoWordBoundary | mainn.py:120-122 | "focus" yields `["Us"]`: the alternation has no word boundaries |
| Extraction.FocusFindsUs | mainn.py:120 | the raw `findall` over "focus" is `["us"]` |
| LocationCleaning.SeparatorAt | mainn.py:510 | the separator matched at a position: a comma, or the whole word `and` |
| LocationCleaning.Pieces | mainn.py:510 | the scan from a position gives at least one piece, and no piece holds a comma |
| LocationCleaning.Split | mainn.py:510 | `re.split` gives at least one piece, and no piece holds a comma |
| LocationCleaning.PiecesSpec | mainn.py:510 | the pieces from a position lie back to back in the input: no `,` or `\band\b` begins inside a piece, consecutive pieces are parted by exactly one separator, and the last runs to the end |
| LocationCleaning.SplitSpec | mainn.py:510 | `re.split` cuts `s` at every comma and every whole word `and`, left to right, and nowhere else |
| LocationCleaning.SplitJoinRoundTrip | mainn.py:510 | without the word `and`, joining the pieces with commas gives back the input |
| LocationCleaning.JoinAtComma | mainn.py:510 | a piece closed by a comma is put back by joining with commas |
| LocationCleaning.Cleaned | mainn.py:511 | the comprehension keeps at most as many parts, none of them empty |
| LocationCleaning.CountNonEmpty | mainn.py:511 | the number of non-empty names, never more than the names given |
| LocationCleaning.CountNonEmptySnoc | mainn.py:511 | one name more counts one more exactly when it is non-empty |
| LocationCleaning.NonEmptyLength | mainn.py:511 | the `if p.strip()` filter keeps one name per non-empty name |
| LocationCleaning.NonEmptyKeeps | mainn.py:511 | every non-empty name is kept, at the position given by the number of non-empty names before it |
| LocationCleaning.NonEmptyOrder | mainn.py:511 | an earlier non-empty name has fewer non-empty names before it, so names keep their order |
| LocationCleaning.NonEmptyComplete | mainn.py:511 | `NonEmptyKeeps` for every non-empty name at once |
| LocationCleaning.CleanedComplete | mainn.py:511 | one name per part that is not blank, and part `j`, stripped, right after the names of the non-blank parts before it: nothing non-blank is dropped and the order is kept |
| LocationCleaning.CleanedKeepsEveryName | mainn.py:511 | every part that is not blank is in the list, stripped, at the position its predecessors give |
| LocationCleaning.CleanedInOrder | mainn.py:511 | of two non-blank parts, the earlier one's name comes first |
| LocationCleaning.CleanedEmptyIff | mainn.py:511-512 | nothing is left exactly when every part is blank |
| LocationCleaning.NonEmptyFrom | mainn.py:511 | each name the `if p.strip()` filter keeps is one of the names it was given |
| LocationCleaning.NonEmptyEmptyIff | mainn.py:511-512 | the filter keeps nothing exactly when every name is empty |
| LocationCleaning.CleanedFromParts | mainn.py:511 | each kept name is a stripped part |
| LocationCleaning.CleanedKeepsTidy | mainn.py:511 | tidy parts are kept unchanged |
| LocationCleaning.CleanLocations | mainn.py:502-513 | falsy input gives `None`; a list comes back unchanged; a non-string non-list gives `None`; a string gives `None` or a non-empty list of non-empty names |
| LocationCleaning.StringLocationsCases | mainn.py:508-512 | a string gives `None` exactly when every piece is blank; otherwise the names are stripped pieces without commas |
| LocationCleaning.StringLocations | mainn.py:508-512 | a string gives `None` exactly when every piece is blank. Otherwise the names are stripped pieces without commas, one per non-blank piece, each non-blank piece in the list in the order of the pieces |
| LocationCleaning.TidyListRoundTrip | mainn.py:508-512 | "Canada,Germany"-style input is read back exactly |
| LocationCleaning.TryJsonLoads | mainn.py:515-520 | the parse, or `None` where `json.loads` raises |
| Intake.RequiredKeysDistinct | mainn.py:140-148 | no required key appears twice |
| Intake.FillRequired | mainn.py:150-152 | afterwards every required key is present. One that was missing or falsy holds the answer to its question, a truthy one keeps its value, and every other key is untouched |
| Intake.SpecializationValue | mainn.py:155-156 | `None` exactly when the reply is empty, else the reply |
| Intake.LorValue | mainn.py:159-172 | the letter text only after a `y` and a successful read, else `None` |
| Intake.FilledScannedField | mainn.py:150-152 | a required field holds its non-empty capture, else the answer |
| Intake.FilledLocationsField | mainn.py:150-152 | `preferred_locations` holds the names found when there are any, else the answer to its question |
| Intake.ScannedKeysRequired | mainn.py:92-148 | every key the scan fills is a required key |
| Intake.ScanAndAsk | mainn.py:134-152 | exactly the required keys. Each holds its non-empty capture or the answer; `preferred_locations` holds the names found, else the answer |
| Intake.ClosingKeysNotRequired | mainn.py:140-174 | the four later keys are not required keys |
| Intake.AddClosingFields | mainn.py:155-174 | the specialization, the letter text and two `None` fields are written; nothing else changes |
| Intake.IntakeAgent | mainn.py:128-180 | the whole `intake_agent` result, field by field |
| Advisor.ParsedReply | mainn.py:553-554 | `try_json_loads` of the reply; `None` for a non-string |
| Advisor.NullProfile | mainn.py:531 | every allowed key, holding `None` |
| Advisor.Seeded | mainn.py:538-541 | only truthy extracted values are seeded; everything else keeps its value |
| Advisor.SeedTruthy | mainn.py:538-541 | the seeding loop computes `Seeded` |
| Advisor.Accepted | mainn.py:567-570 | only listed keys with a non-`None` value overwrite; every other entry is kept |
| Advisor.AcceptFields | mainn.py:567-570 | the `for key in ...` loop computes `Accepted` |
| Advisor.AcceptedSnoc | mainn.py:567-570 | one more step of the loop takes the key exactly when the answer offers a non-`None` value for it, and changes nothing else |
| Advisor.AcceptedStaysAllowed | mainn.py:567-570 | a key outside the allowed list, such as `next_question`, never enters the profile |
| Advisor.EmptyStringOverwrites | mainn.py:567-570 | an empty string overwrites; `None` does not |
| Advisor.ProvidedLater | mainn.py:544-588 | a provided value stays provided in later rounds |
| Advisor.AcceptedProvided | mainn.py:567-570 | a model pass keeps every stored value provided |
| Advisor.SeededProvided | mainn.py:531-541 | the seeded profile holds only scanned values |
| Advisor.AskedAlternates | mainn.py:534-584 | each question is followed by the stripped reply in the history |
| Advisor.NextQuestion | mainn.py:576-579 | a list question becomes its first element |
| Advisor.AdvisorLoop | mainn.py:544-588 | raises only when a model call raised. On completion the keys are the allowed ones plus seeded ones, every non-`None` value was provided, and the history alternates |
| Advisor.ProvidedUpTo | mainn.py:544-588 | provided values stay provided through any later round |
| Advisor.LeadingChars | mainn.py:595 | the run of `c` at the front: all `c`, and followed by something else |
| Advisor.TrailingChars | mainn.py:595 | the run of `c` at the back: all `c`, and preceded by something else |
| Advisor.StripChar | mainn.py:595 | `.strip(c)`: never longer, and never begins or ends with `c` |
| Advisor.StripCharSpec | mainn.py:595 | `.strip(c)` is a contiguous piece of the input with only `c` around it |
| Advisor.WithLetter | mainn.py:590-604 | the letter is asked for only when `lor_text` is falsy, and attached only after `y`, an existing path and non-empty text; with all of those it is attached, as `lor_text` |
| Advisor.WithCleanLocations | mainn.py:606-609 | a truthy non-list `preferred_locations` is replaced by `clean_user_pref_locations` of it; otherwise the profile is unchanged. Afterwards it is a list or falsy; no other key changes |
| Advisor.FinalProfile | mainn.py:611-612 | exactly the allowed keys, with `profile.get(k)` as each value |
| Advisor.FinishProvided | mainn.py:590-612 | after the letter, cleaning and final steps, every value is provided, is the letter text or is cleaned provided locations |
| Advisor.ConversationalAdvisor | mainn.py:522-616 | the final profile has exactly the allowed keys. Every non-`None` value came from the first-message scan or a model answer, or is the letter text or cleaned such locations. `preferred_locations` is a list or falsy. It raises only if a model call raised |
| LlmCall.Chosen | mainn.py:192-220 | the first of `create`, `generate`, `call`, `run`, `__call__` that the object has |
| LlmCall.Coerce | mainn.py:194-218 | a dictionary's `"text"` entry for `create`/`generate`; a string as is; otherwise `json.dumps` |
| LlmCall.CoerceGivesText | mainn.py:194-218 | only a `create`/`generate` dictionary's `"text"` entry can be a non-string |
| LlmCall.CallLlmFlexible | mainn.py:184-226 | at most `max_retries + 1` attempts. The first success is returned, coerced. After the last failure the error is re-raised. With no method, every attempt fails. A negative `max_retries` gives `None` |
| LlmCall.FirstSuccessSpec | mainn.py:189-226 | a result is returned exactly when some attempt in range succeeds, and it is the first such attempt's answer |
| Pipeline.Context | mainn.py:391-458 | each task's `context=` names only tasks of earlier stages, never the profile task |
| Pipeline.IndexOf | mainn.py:480-487 | the first position of a task in the order |
| Pipeline.CrewContextsPrecede | mainn.py:391-487 | every crew task's context lists only tasks earlier in the crew's order |
| Pipeline.PathDescends | mainn.py:391-458 | following context edges only moves backwards in the order |
| Pipeline.NoContextCycle | mainn.py:391-487 | no task reads its own output, directly or through other tasks |
| Pipeline.ContextsInCrew | mainn.py:345-487 | every task a crew task reads is itself in the crew; the unused profile task is never read |

## Left out

- `agents.py`: only prompt strings and constructor calls of the agent framework. The stages
  are oracles (`runStage`, `respond`, `attempt`).
- Streamlit rendering, the `RANK` block re-splitting and emoji replacement, `rating_to_stars`
  (floating point), and the question-and-answer chat on the results page. These are
  presentation or external model calls.
- `utils.py` is not part of this model. `app.py` imports `extract_info_from_text` and
  `extract_lor_text` from it, so the intake form takes their results as parameters.
- PDF and OCR reading (`extract_lor_text`), temporary files, `os.path.exists`, `input()`,
  `print` and `time.sleep`. These are parameters or left out. Only the number of attempts of
  the retry loop is modelled, not the sleep durations.
- The JSON grammar: `json.loads` is a partial function parameter, `json.dumps` a total one.
- The six single-field patterns of `extract_info_from_text`. The full regex semantics
  (`IGNORECASE`, lazy `.*?`, `\b`) are abstracted to the span each first capture group
  covers. Case folding is ASCII only, and `\w` is ASCII only.
- Extraction.Locations: the order of `list(set(...))` depends on string hashing, which is
  not modelled. The model fixes first-occurrence order, and `ExtractInfo`, `LocationsValue`
  and `ScanAndAsk` state the list in that order. The order-independent facts are the
  ensures of `Dedup` and `Locations` and the lemma `LocationsAreMatches`.
- LocationCleaning.Cleaned: its own ensures gives only the bounds and that no name is
  empty. That every non-blank part is kept, in order, is stated by `CleanedComplete`,
  which every caller can invoke. On the function itself it would make every proof that
  mentions `Cleaned` too expensive.
- Values.Value: numbers are integers only. Floats, such as a GPA the model returns, are not
  modelled; of the code modelled here only truthiness would depend on them.
- Advisor.ConversationalAdvisor:
  - `while True` is bounded by a transcript of `maxRounds` rounds. `Unfinished` stands for
    a conversation that has not ended within it.
  - The model's answer of each round is indexed by the round, not computed from the prompt.
  - The first-message scan is passed in as `extracted`.
- AppSession.Session.Advance:
  - `init_session_state` runs on the first script run only, so later runs are modelled by
    the methods alone.
  - The `try` around crew setup is the flag `setupOk`.
  - A `.json` property that raises is `Attr.Raises`.
- Python exceptions other than those the code catches or re-raises are not modelled.

## Findings

| source | as written | input that shows it | evidently intended | confidence | as-written member | corrected member |
|---|---|---|---|---|---|---|
| app.py:629-642 | Refine clears every result but leaves `current_agent` at 5, so `main` keeps choosing the results screen and no stage runs again | any non-blank feedback on the results screen | clearing the results to re-run the pipeline (the handler's own comment says so), i.e. the cursor back at 0 | not executed | AppSession.Session.Refine | AppSession.Session.RefineAndRerun |
