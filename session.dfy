/** The interactive session of the web front end: the session-state fields, the screen
    `main` shows for them, and the handlers that change them (saving the API keys,
    submitting the profile, running the next agent stage, refining, starting over).
    Every call into an agent, the model or the file system is a parameter. */
module AppSession {
  import opened Values
  import opened Text
  import opened Reconciler
  import opened ProfileMerge

  /** Number of agent stages: normalizer, course matcher, course specialist, scholarship
      finder, reviews collector. */
  const StageCount: nat := 5

  /** The keys of `agent_results`, slot by slot. */
  const SlotNames: seq<string> :=
    ["normalized_profile", "matched_programs", "ranked_programs", "scholarships", "reviews"]

  /** Key under which refinement feedback is added to the profile. */
  const FeedbackKey: string := "user_feedback"

  datatype Screen = KeyEntry | ProfileIntake | AgentExecution | Results

  datatype QaEntry = QaEntry(question: string, answer: string)

  type Slots = seq<Option<Value>>

  function EmptyResults(): (r: Slots)
    ensures |r| == StageCount && forall j :: 0 <= j < |r| ==> r[j].None?
  {
    [None, None, None, None, None]
  }

  /** The first empty slot of `s`. */
  function FirstNone(s: Slots): (r: Option<nat>)
    ensures r.Some? ==> r.value < |s| && s[r.value].None? && forall j :: 0 <= j < r.value ==> s[j].Some?
    ensures r.None? ==> forall j :: 0 <= j < |s| ==> s[j].Some?
  {
    if s == [] then None
    else if s[0].None? then Some(0)
    else match FirstNone(s[1..])
      case None => None
      case Some(k) => Some(k + 1)
  }

  /** The stage one call of `render_agent_execution` runs: the first slot at or below the
      cursor without a result. Every earlier slot already holds one. */
  function NextStage(results: Slots, cursor: nat): (r: Option<nat>)
    ensures r.Some? ==> r.value <= cursor && r.value < |results| && results[r.value].None?
                        && forall j :: 0 <= j < r.value ==> results[j].Some?
    ensures r.None? ==> forall j :: 0 <= j <= cursor && j < |results| ==> results[j].Some?
  {
    var n := if cursor + 1 <= |results| then cursor + 1 else |results|;
    var r := FirstNone(results[..n]);
    assert forall j :: 0 <= j < n ==> results[..n][j] == results[j];
    r
  }

  /** The slot whose result stage `i` receives as its `profile` input: the matcher and the
      scholarship finder read the normalized profile, the specialist the matched programs,
      the reviews collector the ranked programs. */
  function InputSlot(i: nat): (j: nat)
    requires 1 <= i < StageCount
    ensures j < i
  {
    if i == 1 then 0 else if i == 2 then 1 else if i == 3 then 0 else 2
  }

  /** What stage `i` is started with: the serialized profile for the normalizer, else the
      stored result of an earlier stage. */
  function StageInput(i: nat, profileJson: string, results: Slots): Value
    requires i < StageCount && |results| == StageCount
    requires i > 0 ==> results[InputSlot(i)].Some?
  {
    if i == 0 then Str(profileJson) else results[InputSlot(i)].value
  }

  /** Slots `0 .. cursor-1` hold results and the others are empty. */
  ghost predicate FilledUpTo(results: Slots, cursor: nat)
  {
    forall j :: 0 <= j < |results| ==> (results[j].Some? <==> j < cursor)
  }

  class Session {
    var apiKeysSet: bool
    var openrouterApiKey: string
    var serperApiKey: string
    var profileComplete: bool
    var studentProfile: Profile
    var qaHistory: seq<QaEntry>
    var processing: bool
    var currentAgent: nat
    var agentResults: Slots

    /** The states the handlers can reach: the results form a prefix ending at the cursor,
        or (after a refinement) everything is cleared with the cursor at the end; before the
        profile is submitted nothing has run, and no profile is submitted before the keys. */
    ghost predicate Valid()
      reads this
    {
      && |agentResults| == StageCount
      && currentAgent <= StageCount
      && (FilledUpTo(agentResults, currentAgent)
          || (currentAgent == StageCount && agentResults == EmptyResults()))
      && (!profileComplete ==> currentAgent == 0 && agentResults == EmptyResults())
      && (!apiKeysSet ==> !profileComplete)
    }

    /** `init_session_state` on the first run of the script. */
    constructor ()
      ensures Valid() && Dispatch() == KeyEntry
      ensures !apiKeysSet && openrouterApiKey == "" && serperApiKey == ""
      ensures !profileComplete && studentProfile == map[] && qaHistory == []
      ensures !processing && currentAgent == 0 && agentResults == EmptyResults()
    {
      apiKeysSet := false;
      openrouterApiKey := "";
      serperApiKey := "";
      profileComplete := false;
      studentProfile := map[];
      qaHistory := [];
      processing := false;
      currentAgent := 0;
      agentResults := EmptyResults();
    }

    /** The screen `main` renders: key entry until both keys are saved, then the intake
        form until a profile is submitted, then the agent pipeline while the cursor is
        below five, then the results. */
    function Dispatch(): (screen: Screen)
      reads this
      ensures screen == KeyEntry <==> !apiKeysSet
      ensures screen == ProfileIntake <==> apiKeysSet && !profileComplete
      ensures screen == AgentExecution <==> apiKeysSet && profileComplete && currentAgent < StageCount
      ensures screen == Results <==> apiKeysSet && profileComplete && currentAgent >= StageCount
    {
      if !apiKeysSet then KeyEntry
      else if !profileComplete then ProfileIntake
      else if currentAgent < StageCount then AgentExecution
      else Results
    }

    /** The "Save API Keys" button: both keys must be non-empty, otherwise nothing changes. */
    method SaveKeys(openrouterKey: string, serperKey: string) returns (saved: bool)
      requires Valid() && Dispatch() == KeyEntry
      modifies this`apiKeysSet, this`openrouterApiKey, this`serperApiKey
      ensures Valid()
      ensures saved == (openrouterKey != "" && serperKey != "")
      ensures saved ==> apiKeysSet && openrouterApiKey == openrouterKey && serperApiKey == serperKey
      ensures saved ==> Dispatch() == ProfileIntake
      ensures !saved ==> Dispatch() == KeyEntry
      ensures !saved ==> apiKeysSet == old(apiKeysSet) && openrouterApiKey == old(openrouterApiKey)
                         && serperApiKey == old(serperApiKey)
    {
      saved := openrouterKey != "" && serperKey != "";
      if saved {
        openrouterApiKey := openrouterKey;
        serperApiKey := serperKey;
        apiKeysSet := true;
      }
    }

    /** The "Analyze My Profile" button. Blank text is refused; otherwise the profile is built
        from the regex fields `regex`, the letter text `lor`, the extraction model's output
        `extracted` (`None` when it raised), and the raw text, and the pipeline screen follows. */
    method SubmitProfile(text: string, regex: Profile, lor: Option<string>,
                         extracted: Option<TaskOutput>, loads: string -> Option<Value>)
      returns (accepted: bool)
      requires Valid() && Dispatch() == ProfileIntake
      modifies this`studentProfile, this`profileComplete
      ensures Valid()
      ensures accepted == (Strip(text) != "")
      ensures accepted ==> studentProfile == IntakeProfile(text, regex, lor, extracted, loads)
                           && Dispatch() == AgentExecution
      ensures !accepted ==> studentProfile == old(studentProfile) && Dispatch() == ProfileIntake
    {
      var profile;
      accepted, profile := ProcessSubmission(text, regex, lor, extracted, loads);
      if accepted {
        profileComplete := true;
        studentProfile := profile;
      }
    }

    /** One run of `render_agent_execution` (with `main` setting `processing` first). If
        building the crew fails (`setupOk` false) nothing runs. Otherwise exactly the stage
        `NextStage` picks runs, through `runStage` (`None` when its kickoff raised): on success
        its slot gets the reconciled output and the cursor moves past it; on failure the
        results and the cursor stay and `processing` is cleared. No other slot changes. */
    method Advance(setupOk: bool, dumps: Profile -> string,
                   runStage: (nat, Value) -> Option<TaskOutput>, loads: string -> Option<Value>)
      returns (ran: Option<nat>)
      requires Valid() && Dispatch() == AgentExecution
      modifies this`processing, this`agentResults, this`currentAgent
      ensures Valid()
      ensures !setupOk ==> ran.None? && agentResults == old(agentResults)
                           && currentAgent == old(currentAgent) && !processing
      ensures setupOk ==> ran == NextStage(old(agentResults), old(currentAgent)) && ran == Some(old(currentAgent))
      ensures ran.Some? ==>
                var i := ran.value;
                var out := runStage(i, StageInput(i, dumps(studentProfile), old(agentResults)));
                && (out.Some? ==> agentResults == old(agentResults)[i := Some(ParseAgentOutput(out.value, loads))]
                                  && currentAgent == i + 1 && processing == (i + 1 < StageCount))
                && (out.None? ==> agentResults == old(agentResults) && currentAgent == old(currentAgent)
                                  && !processing)
    {
      processing := true;
      if !setupOk {
        processing := false;
        return None;
      }
      var profileJson := dumps(studentProfile);
      NextStageIsCursor(this);
      ran := NextStage(agentResults, currentAgent);
      var i := ran.value;
      var out := runStage(i, StageInput(i, profileJson, agentResults));
      if out.None? {
        processing := false;
        return;
      }
      agentResults := agentResults[i := Some(ParseAgentOutput(out.value, loads))];
      currentAgent := i + 1;
      if i + 1 == StageCount {
        processing := false;
      }
    }

    /** The "Refine Recommendations" button, as written: with non-blank feedback the stripped
        feedback is added to the profile and every result is cleared, but the cursor stays at
        five, so `main` keeps showing the (now empty) results screen and no stage runs again. */
    method Refine(feedback: string) returns (refined: bool)
      requires Valid() && Dispatch() == Results
      modifies this`studentProfile, this`agentResults
      ensures Valid()
      ensures refined == (Strip(feedback) != "")
      ensures refined ==> studentProfile == old(studentProfile)[FeedbackKey := Str(Strip(feedback))]
                          && agentResults == EmptyResults()
      ensures !refined ==> studentProfile == old(studentProfile) && agentResults == old(agentResults)
      ensures Dispatch() == Results
    {
      refined := Strip(feedback) != "";
      if refined {
        studentProfile := studentProfile[FeedbackKey := Str(Strip(feedback))];
        agentResults := EmptyResults();
      }
    }

    /** The refinement the button's comment intends ("reset agent results to re-run"): the
        same profile and result changes, and the cursor back at the first stage, so that the
        next run of `main` starts the pipeline again with the normalizer. */
    method RefineAndRerun(feedback: string) returns (refined: bool)
      requires Valid() && Dispatch() == Results
      modifies this`studentProfile, this`agentResults, this`currentAgent
      ensures Valid()
      ensures refined == (Strip(feedback) != "")
      ensures refined ==> studentProfile == old(studentProfile)[FeedbackKey := Str(Strip(feedback))]
                          && agentResults == EmptyResults() && currentAgent == 0
                          && Dispatch() == AgentExecution && NextStage(agentResults, currentAgent) == Some(0)
      ensures !refined ==> studentProfile == old(studentProfile) && agentResults == old(agentResults)
                           && currentAgent == old(currentAgent) && Dispatch() == Results
    {
      refined := Strip(feedback) != "";
      if refined {
        studentProfile := studentProfile[FeedbackKey := Str(Strip(feedback))];
        agentResults := EmptyResults();
        currentAgent := 0;
      }
    }

    /** The "Start New Search" button: back to the intake form with an empty profile, no
        questions, the cursor at the first stage and every result cleared. The keys stay. */
    method NewSearch()
      requires Valid() && Dispatch() == Results
      modifies this`profileComplete, this`studentProfile, this`qaHistory, this`currentAgent, this`agentResults
      ensures Valid() && Dispatch() == ProfileIntake
      ensures !profileComplete && studentProfile == map[] && qaHistory == []
      ensures currentAgent == 0 && agentResults == EmptyResults()
    {
      profileComplete := false;
      studentProfile := map[];
      qaHistory := [];
      currentAgent := 0;
      agentResults := EmptyResults();
    }
  }

  /** In every reachable state a stage's result exists only if all earlier stages' results
      exist: ranking is never stored before matching. */
  lemma ResultsArePrefix(s: Session, j: nat, k: nat)
    requires s.Valid() && j < k < StageCount && s.agentResults[k].Some?
    ensures s.agentResults[j].Some?
  {
  }

  /** On the pipeline screen the next stage is always the one at the cursor: a stage with a
      stored result is never run again. */
  lemma NextStageIsCursor(s: Session)
    requires s.Valid() && s.Dispatch() == AgentExecution
    ensures NextStage(s.agentResults, s.currentAgent) == Some(s.currentAgent)
  {
    var c := s.currentAgent;
    assert s.agentResults[c].None?;
    var r := NextStage(s.agentResults, c);
    if r.Some? {
      assert r.value >= c;
    }
  }

  /** The stage wiring is acyclic: every stage reads only results of earlier stages. */
  lemma StageInputsPrecede(i: nat)
    requires 1 <= i < StageCount
    ensures InputSlot(i) < i
    ensures i == 1 || i == 3 ==> SlotNames[InputSlot(i)] == "normalized_profile"
    ensures i == 2 ==> SlotNames[InputSlot(i)] == "matched_programs"
    ensures i == 4 ==> SlotNames[InputSlot(i)] == "ranked_programs"
  {
  }
}
