/** The console intake `intake_agent`: the keyword scan of the first message, one question
    for every required field the scan left empty, then the specialization, the optional
    letter of recommendation and two fields that are always empty. Every `input()` answer
    is a parameter: `answer(q)` is what the student types when asked `q` (each question is
    asked at most once). */
module Intake {
  import opened Values
  import opened Text
  import opened Extraction

  /** `required_fields`, in its insertion order: the key and the question asked for it. */
  const RequiredFields: seq<(string, string)> := [
    ("student_name", "What's your full name?"),
    ("current_degree", "What degree are you currently pursuing?"),
    ("graduation_year", "When do you expect to graduate?"),
    ("cgpa", "What's your current CGPA?"),
    ("career_goal", "What's your main career goal?"),
    ("preferred_locations", "Which countries are you interested in studying?"),
    ("budget", "What is your approximate budget for the program?")
  ]

  /** The keys among the first `n` entries of `fields`. */
  ghost function KeysUpTo(fields: seq<(string, string)>, n: nat): set<string>
    requires n <= |fields|
  {
    set j | 0 <= j < n :: fields[j].0
  }

  predicate DistinctKeys(fields: seq<(string, string)>)
  {
    forall j, j' :: 0 <= j < j' < |fields| ==> fields[j].0 != fields[j'].0
  }

  /** The field needs asking: it is missing or holds a falsy value. */
  predicate NeedsAnswer(profile: map<string, Value>, key: string)
  {
    key !in profile || !Truthy(profile[key])
  }

  /** No key of `required_fields` appears twice. */
  lemma RequiredKeysDistinct()
    ensures DistinctKeys(RequiredFields)
  {
    forall j, j' | 0 <= j < j' < |RequiredFields|
      ensures RequiredFields[j].0 != RequiredFields[j'].0
    {
      assert |RequiredFields[j].0| != |RequiredFields[j'].0|;
    }
  }

  /** What one entry of `required_fields` leaves in the profile: the answer to its question
      when the field is missing or falsy, else the value it had. */
  function FilledValue(profile: map<string, Value>, field: (string, string), answer: string -> string): Value
  {
    if NeedsAnswer(profile, field.0) then Str(answer(field.1)) else profile[field.0]
  }

  /** The loop `for field, question in required_fields.items()`: every required field ends up
      holding what its own entry leaves, and every other entry is kept. */
  method FillRequired(profile: map<string, Value>, fields: seq<(string, string)>, answer: string -> string)
    returns (filled: map<string, Value>)
    requires DistinctKeys(fields)
    ensures filled.Keys == profile.Keys + KeysUpTo(fields, |fields|)
    ensures forall j :: 0 <= j < |fields| ==> filled[fields[j].0] == FilledValue(profile, fields[j], answer)
    ensures forall k :: k in profile && k !in KeysUpTo(fields, |fields|) ==> filled[k] == profile[k]
  {
    filled := profile;
    for i := 0 to |fields|
      invariant filled.Keys == profile.Keys + KeysUpTo(fields, i)
      invariant forall j :: 0 <= j < i ==> filled[fields[j].0] == FilledValue(profile, fields[j], answer)
      invariant forall k :: k in profile && k !in KeysUpTo(fields, i) ==> filled[k] == profile[k]
    {
      var (field, question) := fields[i];
      assert field !in KeysUpTo(fields, i);
      if field !in filled || !Truthy(filled[field]) {
        filled := filled[field := Str(answer(question))];
      }
      assert KeysUpTo(fields, i + 1) == KeysUpTo(fields, i) + {field};
    }
  }

  /** The specialization is stored as typed, or `None` for an empty answer. */
  function SpecializationValue(reply: string): (v: Value)
    ensures v == Null <==> reply == ""
    ensures v != Null ==> v == Str(reply)
  {
    if reply != "" then Str(reply) else Null
  }

  /** The letter text stored: what the reader returned when the student answered `y`
      (after `strip().lower()`), else `None`. `read` is `extract_lor_text`'s result. */
  function LorValue(choice: string, read: Option<string>): (v: Value)
    ensures v != Null ==> LowerAll(Strip(choice)) == "y" && read.Some? && v == Str(read.value)
    ensures LowerAll(Strip(choice)) == "y" && read.Some? ==> v == Str(read.value)
  {
    if LowerAll(Strip(choice)) == "y" then
      match read
      case Some(t) => Str(t)
      case None => Null
    else Null
  }

  /** What a scanned required field holds after the fill loop: its non-empty capture when
      the scan found one, else the answer to its question. */
  function ScannedFieldValue(j: nat, text: string, c: Option<Span>, answer: string -> string): Value
    requires j < |RequiredFields| && SpanInText(text, c)
  {
    if c.Some? && CapturedText(text, c.value) != "" then Str(CapturedText(text, c.value))
    else Str(answer(RequiredFields[j].1))
  }

  /** What `preferred_locations` holds after the fill loop: the scanned names when there are
      any, else the answer to its question. */
  function LocationsValue(text: string, answer: string -> string): Value
  {
    if Locations(text) != [] then List(StrList(Locations(text)))
    else Str(answer(RequiredFields[5].1))
  }

  /** A scanned field through the fill loop: its non-empty capture, else the answer. */
  lemma FilledScannedField(info: map<string, Value>, j: nat, text: string, c: Option<Span>,
                           answer: string -> string)
    requires j < |RequiredFields| && SpanInText(text, c)
    requires Recorded(info, RequiredFields[j].0, text, c)
    ensures FilledValue(info, RequiredFields[j], answer) == ScannedFieldValue(j, text, c, answer)
  {
  }

  /** The locations field through the fill loop: the names found, else the answer. */
  lemma FilledLocationsField(info: map<string, Value>, text: string, answer: string -> string)
    requires LocationsKey in info <==> Locations(text) != []
    requires LocationsKey in info ==> info[LocationsKey] == List(StrList(Locations(text)))
    ensures FilledValue(info, RequiredFields[5], answer) == LocationsValue(text, answer)
  {
    assert RequiredFields[5].0 == LocationsKey;
    if Locations(text) != [] {
      assert |StrList(Locations(text))| > 0;
    }
  }

  /** Every key the scan can fill is a required key, and the required keys are those
      of the scan. */
  lemma ScannedKeysRequired()
    ensures && RequiredFields[0].0 == "student_name" && RequiredFields[1].0 == "current_degree"
            && RequiredFields[2].0 == "graduation_year" && RequiredFields[3].0 == "cgpa"
            && RequiredFields[4].0 == "career_goal" && RequiredFields[5].0 == LocationsKey
            && RequiredFields[6].0 == "budget"
    ensures forall k :: k in CaptureKeys || k == LocationsKey ==> k in KeysUpTo(RequiredFields, |RequiredFields|)
  {
    forall k | k in CaptureKeys || k == LocationsKey
      ensures k in KeysUpTo(RequiredFields, |RequiredFields|)
    {
      var j := if k == LocationsKey then 5 else
               if k == CaptureKeys[0] then 0 else if k == CaptureKeys[1] then 1 else
               if k == CaptureKeys[2] then 2 else if k == CaptureKeys[3] then 3 else
               if k == CaptureKeys[4] then 4 else 6;
      assert k == RequiredFields[j].0;
    }
  }

  /** The scan followed by the fill loop: the profile holds exactly the required fields,
      each holding what the scan found when that is truthy and the student's answer
      otherwise. */
  method ScanAndAsk(text: string, caps: Captures, answer: string -> string) returns (profile: map<string, Value>)
    requires CapturesInText(text, caps)
    ensures profile.Keys == KeysUpTo(RequiredFields, |RequiredFields|)
    ensures profile[RequiredFields[0].0] == ScannedFieldValue(0, text, caps.name, answer)
    ensures profile[RequiredFields[1].0] == ScannedFieldValue(1, text, caps.degree, answer)
    ensures profile[RequiredFields[2].0] == ScannedFieldValue(2, text, caps.year, answer)
    ensures profile[RequiredFields[3].0] == ScannedFieldValue(3, text, caps.cgpa, answer)
    ensures profile[RequiredFields[4].0] == ScannedFieldValue(4, text, caps.goal, answer)
    ensures profile[RequiredFields[5].0] == LocationsValue(text, answer)
    ensures profile[RequiredFields[6].0] == ScannedFieldValue(6, text, caps.budget, answer)
  {
    var info := ExtractInfo(text, caps);
    RequiredKeysDistinct();
    ScannedKeysRequired();
    profile := FillRequired(info, RequiredFields, answer);
    assert profile.Keys == KeysUpTo(RequiredFields, |RequiredFields|);
    FilledScannedField(info, 0, text, caps.name, answer);
    FilledScannedField(info, 1, text, caps.degree, answer);
    FilledScannedField(info, 2, text, caps.year, answer);
    FilledScannedField(info, 3, text, caps.cgpa, answer);
    FilledScannedField(info, 4, text, caps.goal, answer);
    FilledLocationsField(info, text, answer);
    FilledScannedField(info, 6, text, caps.budget, answer);
  }

  /** The four keys written after the fill loop. */
  const ClosingKeys: set<string> := {"specialization", "lor_text", "special_requirements", "other_info"}

  /** None of them is a required key, so writing them keeps the required fields. */
  lemma ClosingKeysNotRequired()
    ensures forall j :: 0 <= j < |RequiredFields| ==> RequiredFields[j].0 !in ClosingKeys
  {
    forall j | 0 <= j < |RequiredFields|
      ensures RequiredFields[j].0 !in ClosingKeys
    {
      assert RequiredFields[j].0[0] != 's' || |RequiredFields[j].0| != 14;
    }
  }

  /** The four writes after the fill loop; every other entry is kept. */
  method AddClosingFields(profile: map<string, Value>, specialization: string, lorChoice: string,
                          lorRead: Option<string>)
    returns (closed: map<string, Value>)
    ensures closed.Keys == profile.Keys + ClosingKeys
    ensures forall k :: k in profile && k !in ClosingKeys ==> closed[k] == profile[k]
    ensures closed["specialization"] == SpecializationValue(specialization)
    ensures closed["lor_text"] == LorValue(lorChoice, lorRead)
    ensures closed["special_requirements"] == Null
    ensures closed["other_info"] == Null
  {
    closed := profile["specialization" := SpecializationValue(specialization)];
    closed := closed["lor_text" := LorValue(lorChoice, lorRead)];
    closed := closed["special_requirements" := Null];
    closed := closed["other_info" := Null];
  }

  /** `intake_agent`: the scanned and asked-for required fields, then the specialization,
      the letter text and the two fields that are always empty. */
  method IntakeAgent(text: string, caps: Captures, answer: string -> string,
                     specialization: string, lorChoice: string, lorRead: Option<string>)
    returns (profile: map<string, Value>)
    requires CapturesInText(text, caps)
    ensures profile.Keys == KeysUpTo(RequiredFields, |RequiredFields|) + ClosingKeys
    ensures profile[RequiredFields[0].0] == ScannedFieldValue(0, text, caps.name, answer)
    ensures profile[RequiredFields[1].0] == ScannedFieldValue(1, text, caps.degree, answer)
    ensures profile[RequiredFields[2].0] == ScannedFieldValue(2, text, caps.year, answer)
    ensures profile[RequiredFields[3].0] == ScannedFieldValue(3, text, caps.cgpa, answer)
    ensures profile[RequiredFields[4].0] == ScannedFieldValue(4, text, caps.goal, answer)
    ensures profile[RequiredFields[5].0] == LocationsValue(text, answer)
    ensures profile[RequiredFields[6].0] == ScannedFieldValue(6, text, caps.budget, answer)
    ensures "specialization" in profile && profile["specialization"] == SpecializationValue(specialization)
    ensures "lor_text" in profile && profile["lor_text"] == LorValue(lorChoice, lorRead)
    ensures "special_requirements" in profile && profile["special_requirements"] == Null
    ensures "other_info" in profile && profile["other_info"] == Null
  {
    var asked := ScanAndAsk(text, caps, answer);
    ClosingKeysNotRequired();
    profile := AddClosingFields(asked, specialization, lorChoice, lorRead);
  }
}
