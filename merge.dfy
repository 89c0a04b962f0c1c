/** How the intake form builds the student profile: the regex-extracted fields, the
    optional recommendation-letter text, the fields the extraction model returned (each
    overriding only when it has a value), and finally the raw text the student typed. */
module ProfileMerge {
  import opened Values
  import opened Text
  import opened Reconciler

  type Profile = map<string, Value>

  /** Key under which the student's own text is kept. */
  const RawInputKey: string := "raw_input_text"
  /** Key under which the recommendation-letter text is kept. */
  const LorKey: string := "lor_text"

  /** The profile after the model's fields are merged in: a key the model filled with a
      non-blank value takes that value, every other key keeps the regex value. */
  function MergeSpec(profile: Profile, llm: Profile): (merged: Profile)
    ensures merged.Keys == profile.Keys + (set k | k in llm && !IsBlank(llm[k]))
    ensures forall k :: k in llm && !IsBlank(llm[k]) ==> merged[k] == llm[k]
    ensures forall k :: k in profile && (k !in llm || IsBlank(llm[k])) ==> merged[k] == profile[k]
  {
    map k | k in profile.Keys + llm.Keys && (k in profile || !IsBlank(llm[k])) ::
      if k in llm && !IsBlank(llm[k]) then llm[k] else profile[k]
  }

  /** The loop `for k, v in llm_profile.items(): if v not in (None, "", []): profile[k] = v`. */
  method MergeLlmFields(profile: Profile, llm: Profile) returns (merged: Profile)
    ensures merged == MergeSpec(profile, llm)
  {
    merged := profile;
    var todo := llm.Keys;
    while todo != {}
      invariant todo <= llm.Keys
      invariant merged.Keys == profile.Keys + (set k | k in llm && k !in todo && !IsBlank(llm[k]))
      invariant forall k :: k in merged ==>
                  merged[k] == if k in llm && k !in todo && !IsBlank(llm[k]) then llm[k] else profile[k]
      decreases todo
    {
      var k :| k in todo;
      if !IsBlank(llm[k]) {
        merged := merged[k := llm[k]];
      }
      todo := todo - {k};
    }
  }

  /** Merging never invents a value: every value of the merged profile is the model's value
      or the regex value for the same key, and no regex key is dropped. */
  lemma MergeNoFabrication(profile: Profile, llm: Profile, k: string)
    requires k in MergeSpec(profile, llm)
    ensures var v := MergeSpec(profile, llm)[k];
            (k in llm && v == llm[k] && !IsBlank(v)) || (k in profile && v == profile[k])
  {
  }

  /** What the extraction model's answer becomes before merging: `parse_agent_output`, then
      a second `json.loads` when that gave a string. Only a dictionary is merged. */
  function LlmProfile(extracted: Option<TaskOutput>, loads: string -> Option<Value>): (m: Option<Profile>)
    ensures extracted.None? ==> m.None?
    ensures m.Some? ==>
              && extracted.Some?
              && var p := ParseAgentOutput(extracted.value, loads);
                 p == Dict(m.value) || (p.Str? && loads(p.s) == Some(Dict(m.value)))
  {
    match extracted
    case None => None
    case Some(out) =>
      match ParseAgentOutput(out, loads)
      case Dict(fields) => Some(fields)
      case Str(s) => (match loads(s) case Some(Dict(fields)) => Some(fields) case _ => None)
      case _ => None
  }

  /** The profile `render_profile_intake` stores for the text `text`. `regex` is what the
      regex extractor found, `lor` what the letter extractor returned (`None` when no file
      was given or extraction failed), `extracted` the model's output (`None` when building
      or calling the extractor raised). */
  function IntakeProfile(text: string, regex: Profile, lor: Option<string>,
                         extracted: Option<TaskOutput>, loads: string -> Option<Value>): (p: Profile)
    ensures regex.Keys + {RawInputKey} <= p.Keys
    ensures lor.Some? && lor.value != "" ==> LorKey in p
    ensures p[RawInputKey] == Str(text)
  {
    var withLor := if lor.Some? && lor.value != "" then regex[LorKey := Str(lor.value)] else regex;
    var merged := match LlmProfile(extracted, loads)
                  case Some(m) => MergeSpec(withLor, m)
                  case None => withLor;
    merged[RawInputKey := Str(text)]
  }

  /** Steps 1 to 4 of `render_profile_intake`, updating the profile one step at a time. */
  method BuildIntakeProfile(text: string, regex: Profile, lor: Option<string>,
                            extracted: Option<TaskOutput>, loads: string -> Option<Value>)
    returns (profile: Profile)
    ensures profile == IntakeProfile(text, regex, lor, extracted, loads)
  {
    profile := regex;
    if lor.Some? && lor.value != "" {
      profile := profile[LorKey := Str(lor.value)];
    }
    ghost var withLor := profile;
    var llm := LlmProfile(extracted, loads);
    if llm.Some? {
      profile := MergeLlmFields(profile, llm.value);
    }
    assert profile == if llm.Some? then MergeSpec(withLor, llm.value) else withLor;
    profile := profile[RawInputKey := Str(text)];
  }

  /** The submit button's work: blank text is refused, otherwise the profile is built. */
  method ProcessSubmission(text: string, regex: Profile, lor: Option<string>,
                           extracted: Option<TaskOutput>, loads: string -> Option<Value>)
    returns (accepted: bool, profile: Profile)
    ensures accepted == (Strip(text) != "")
    ensures accepted ==> profile == IntakeProfile(text, regex, lor, extracted, loads)
  {
    accepted := Strip(text) != "";
    profile := map[];
    if accepted {
      profile := BuildIntakeProfile(text, regex, lor, extracted, loads);
    }
  }

  /** The raw text is always stored, and under its key nothing else survives. */
  lemma RawInputAlwaysKept(text: string, regex: Profile, lor: Option<string>,
                           extracted: Option<TaskOutput>, loads: string -> Option<Value>)
    ensures var p := IntakeProfile(text, regex, lor, extracted, loads);
            RawInputKey in p && p[RawInputKey] == Str(text)
  {
  }

  /** Every regex key survives; it keeps its value unless the model gave a non-blank one
      (or it is the letter or raw-text key, which are written by the intake itself). */
  lemma RegexFieldsKept(text: string, regex: Profile, lor: Option<string>,
                        extracted: Option<TaskOutput>, loads: string -> Option<Value>, k: string)
    requires k in regex && k != RawInputKey && k != LorKey
    requires LlmProfile(extracted, loads).Some? ==>
             (var m := LlmProfile(extracted, loads).value; k !in m || IsBlank(m[k]))
    ensures var p := IntakeProfile(text, regex, lor, extracted, loads);
            k in p && p[k] == regex[k]
  {
  }

  /** A non-blank field from the model always reaches the profile, unless it is the raw-text key. */
  lemma LlmFieldsOverride(text: string, regex: Profile, lor: Option<string>,
                          extracted: Option<TaskOutput>, loads: string -> Option<Value>, k: string)
    requires LlmProfile(extracted, loads).Some?
    requires var m := LlmProfile(extracted, loads).value; k in m && !IsBlank(m[k])
    requires k != RawInputKey
    ensures var p := IntakeProfile(text, regex, lor, extracted, loads);
            k in p && p[k] == LlmProfile(extracted, loads).value[k]
  {
  }

  /** No value appears from nowhere: each value of the stored profile is the raw text, the
      letter text, a regex value or a non-blank model value for the same key. */
  lemma IntakeNoFabrication(text: string, regex: Profile, lor: Option<string>,
                            extracted: Option<TaskOutput>, loads: string -> Option<Value>, k: string)
    requires k in IntakeProfile(text, regex, lor, extracted, loads)
    ensures var v := IntakeProfile(text, regex, lor, extracted, loads)[k];
            || (k == RawInputKey && v == Str(text))
            || (k == LorKey && lor.Some? && v == Str(lor.value))
            || (k in regex && v == regex[k])
            || (LlmProfile(extracted, loads).Some? && k in LlmProfile(extracted, loads).value
                && v == LlmProfile(extracted, loads).value[k] && !IsBlank(v))
  {
    var withLor := if lor.Some? && lor.value != "" then regex[LorKey := Str(lor.value)] else regex;
    if k != RawInputKey && LlmProfile(extracted, loads).Some? {
      MergeNoFabrication(withLor, LlmProfile(extracted, loads).value, k);
    }
  }

  /** With no usable model output the profile is the regex profile plus letter and raw text. */
  lemma NoDictNoMerge(text: string, regex: Profile, lor: Option<string>,
                      extracted: Option<TaskOutput>, loads: string -> Option<Value>)
    requires LlmProfile(extracted, loads).None?
    ensures IntakeProfile(text, regex, lor, extracted, loads) ==
            (if lor.Some? && lor.value != "" then regex[LorKey := Str(lor.value)] else regex)[RawInputKey := Str(text)]
  {
  }
}
