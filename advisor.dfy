/** The console `run_conversational_advisor`: a profile seeded with every allowed key set
    to `None`, the truthy values of the first-message scan, then a loop in which the model
    reads the conversation, returns fields and possibly a next question, and the student
    answers. Afterwards the optional letter of recommendation and the cleaning of
    `preferred_locations`, and a final profile over the allowed keys only.

    The model, `input()` and the file system are oracles: `respond(r)` is what the model
    call of round `r` produced (or that it raised), `replies(j)` is the `j`-th answer the
    student types to a follow-up question, and `maxRounds` bounds how many rounds the
    transcript covers. */
module Advisor {
  import opened Values
  import opened Text
  import opened Extraction
  import opened LocationCleaning

  const MandatoryFields: seq<string> := ["student_name", "current_degree", "specialization",
    "graduation_year", "cgpa", "career_goal", "preferred_locations", "budget"]
  const OptionalFields: seq<string> := ["special_requirements", "other_info", "lor_text"]
  /** `MANDATORY_FIELDS + OPTIONAL_FIELDS`: the only keys the advisor stores. */
  const AllowedFields: seq<string> := MandatoryFields + OptionalFields

  /** The question asked when the model's answer is not a JSON object. */
  const ClarifyQuestion: string := "Could you briefly restate your current degree and CGPA (if any)?"

  datatype Role = User | Assistant
  /** One entry of `history`: `{"role": ..., "content": ...}`. */
  datatype Turn = Turn(role: Role, content: Value)

  /** What one call of `call_llm_flexible` did: raised, or returned a value. */
  datatype Reply = CallRaised | Answered(raw: Value)

  /** How the advisor ended: the model call raised (the exception leaves the advisor), the
      transcript ran out before the model stopped asking, or the final profile. */
  datatype Advice = Raised | Unfinished | Finished(profile: map<string, Value>, history: seq<Turn>)

  /** `try_json_loads(raw_response)`. `json.loads` of anything but a string raises, which
      gives `None`. */
  function ParsedReply(raw: Value, loads: string -> Option<Value>): (p: Value)
    ensures raw.Str? ==> p == TryJsonLoads(loads, raw.s)
    ensures !raw.Str? ==> p == Null
  {
    if raw.Str? then TryJsonLoads(loads, raw.s) else Null
  }

  /** `{k: None for k in MANDATORY_FIELDS + OPTIONAL_FIELDS}`. */
  function NullProfile(fields: seq<string>): (p: map<string, Value>)
    ensures forall k :: k in p <==> k in fields
    ensures forall k :: k in p ==> p[k] == Null
  {
    map k | k in fields :: Null
  }

  /** The seeding loop `for k, v in initial_extracted.items(): if v: profile[k] = v`. */
  function Seeded(profile: map<string, Value>, extracted: map<string, Value>): (p: map<string, Value>)
    ensures p.Keys == profile.Keys + (set k | k in extracted && Truthy(extracted[k]))
    ensures forall k :: k in extracted && Truthy(extracted[k]) ==> p[k] == extracted[k]
    ensures forall k :: k in profile && (k !in extracted || !Truthy(extracted[k])) ==> p[k] == profile[k]
  {
    map k | k in profile.Keys + extracted.Keys && (k in profile || Truthy(extracted[k])) ::
      if k in extracted && Truthy(extracted[k]) then extracted[k] else profile[k]
  }

  method SeedTruthy(profile: map<string, Value>, extracted: map<string, Value>) returns (seeded: map<string, Value>)
    ensures seeded == Seeded(profile, extracted)
  {
    seeded := profile;
    var todo := extracted.Keys;
    while todo != {}
      invariant todo <= extracted.Keys
      invariant seeded.Keys == profile.Keys + (set k | k in extracted && k !in todo && Truthy(extracted[k]))
      invariant forall k :: k in seeded ==>
                  seeded[k] == if k in extracted && k !in todo && Truthy(extracted[k]) then extracted[k] else profile[k]
      decreases todo
    {
      var k :| k in todo;
      if Truthy(extracted[k]) {
        seeded := seeded[k := extracted[k]];
      }
      todo := todo - {k};
    }
  }

  /** The loop `for key in MANDATORY_FIELDS + OPTIONAL_FIELDS: if key in parsed and
      parsed[key] is not None: profile[key] = parsed[key]`. Only listed keys are taken, and
      any non-`None` value is, the empty string included. */
  function Accepted(profile: map<string, Value>, parsed: map<string, Value>, fields: seq<string>)
    : (p: map<string, Value>)
    ensures p.Keys == profile.Keys + (set k | k in fields && k in parsed && parsed[k] != Null)
    ensures forall k :: k in fields && k in parsed && parsed[k] != Null ==> p[k] == parsed[k]
    ensures forall k :: k in profile && !(k in fields && k in parsed && parsed[k] != Null) ==> p[k] == profile[k]
  {
    map k | k in profile.Keys + (set f | f in fields && f in parsed && parsed[f] != Null) ::
      if k in fields && k in parsed && parsed[k] != Null then parsed[k] else profile[k]
  }

  method AcceptFields(profile: map<string, Value>, parsed: map<string, Value>, fields: seq<string>)
    returns (accepted: map<string, Value>)
    ensures accepted == Accepted(profile, parsed, fields)
  {
    accepted := profile;
    assert accepted == Accepted(profile, parsed, fields[..0]);
    for i := 0 to |fields|
      invariant accepted == Accepted(profile, parsed, fields[..i])
    {
      var key := fields[i];
      assert fields[..i + 1] == fields[..i] + [key];
      AcceptedSnoc(profile, parsed, fields[..i], key);
      if key in parsed && parsed[key] != Null {
        accepted := accepted[key := parsed[key]];
      }
    }
    assert fields[..|fields|] == fields;
  }

  /** One more listed key: the earlier result, with that key taken when the answer offers
      a non-`None` value for it. */
  lemma AcceptedSnoc(profile: map<string, Value>, parsed: map<string, Value>, fields: seq<string>, key: string)
    ensures Accepted(profile, parsed, fields + [key]) ==
              if key in parsed && parsed[key] != Null then Accepted(profile, parsed, fields)[key := parsed[key]]
              else Accepted(profile, parsed, fields)
  {
    var before := Accepted(profile, parsed, fields);
    var after := Accepted(profile, parsed, fields + [key]);
    assert forall k :: k in fields + [key] <==> k in fields || k == key;
    if key in parsed && parsed[key] != Null {
      var taken := before[key := parsed[key]];
      assert after.Keys == taken.Keys;
      forall k | k in after ensures after[k] == taken[k] {
      }
    } else {
      assert after.Keys == before.Keys;
      forall k | k in after ensures after[k] == before[k] {
      }
    }
  }

  /** A model answer cannot add a key that is not listed (so `next_question` and any other
      stray key never enter the profile), and when every listed key is already present the
      keys do not change at all. */
  lemma AcceptedStaysAllowed(profile: map<string, Value>, parsed: map<string, Value>, fields: seq<string>)
    ensures forall k :: k in Accepted(profile, parsed, fields) && k !in profile ==> k in fields
    ensures (forall f :: f in fields ==> f in profile) ==> Accepted(profile, parsed, fields).Keys == profile.Keys
  {
  }

  /** An empty string from the model does overwrite an earlier value; `None` does not. */
  lemma EmptyStringOverwrites(profile: map<string, Value>, key: string)
    requires key in profile && key in AllowedFields
    ensures Accepted(profile, map[key := Str("")], AllowedFields)[key] == Str("")
    ensures Accepted(profile, map[key := Null], AllowedFields) == profile
  {
    var offered := map[key := Str("")];
    assert key in AllowedFields && key in offered && offered[key] != Null;
    var none := map[key := Null];
    assert (set k | k in AllowedFields && k in none && none[k] != Null) == {};
  }

  /** Round `r`'s model answer was a JSON object offering `v` for `k`. */
  ghost predicate Offered(respond: nat -> Reply, loads: string -> Option<Value>, r: nat, k: string, v: Value)
  {
    && respond(r).Answered?
    && ParsedReply(respond(r).raw, loads).Dict?
    && k in ParsedReply(respond(r).raw, loads).fields
    && ParsedReply(respond(r).raw, loads).fields[k] == v
    && v != Null
  }

  /** `v` under `k` was provided: a truthy value of the first-message scan, or a
      value the model returned in one of the first `rounds` rounds. */
  ghost predicate Provided(k: string, v: Value, extracted: map<string, Value>,
                           respond: nat -> Reply, loads: string -> Option<Value>, rounds: nat)
  {
    || (k in extracted && Truthy(extracted[k]) && v == extracted[k])
    || exists r: nat :: r < rounds && Offered(respond, loads, r, k, v)
  }

  /** Every non-`None` value of the profile was provided. */
  ghost predicate OnlyProvided(profile: map<string, Value>, extracted: map<string, Value>,
                               respond: nat -> Reply, loads: string -> Option<Value>, rounds: nat)
  {
    forall k :: k in profile && profile[k] != Null ==> Provided(k, profile[k], extracted, respond, loads, rounds)
  }

  lemma ProvidedLater(profile: map<string, Value>, extracted: map<string, Value>,
                      respond: nat -> Reply, loads: string -> Option<Value>, rounds: nat)
    requires OnlyProvided(profile, extracted, respond, loads, rounds)
    ensures OnlyProvided(profile, extracted, respond, loads, rounds + 1)
  {
    forall k | k in profile && profile[k] != Null
      ensures Provided(k, profile[k], extracted, respond, loads, rounds + 1)
    {
      if !(k in extracted && Truthy(extracted[k]) && profile[k] == extracted[k]) {
        var r: nat :| r < rounds && Offered(respond, loads, r, k, profile[k]);
        assert r < rounds + 1;
      }
    }
  }

  /** Accepting round `r`'s fields keeps every value provided, up to round `r + 1`. */
  lemma AcceptedProvided(profile: map<string, Value>, extracted: map<string, Value>,
                         respond: nat -> Reply, loads: string -> Option<Value>, r: nat)
    requires OnlyProvided(profile, extracted, respond, loads, r)
    requires respond(r).Answered? && ParsedReply(respond(r).raw, loads).Dict?
    ensures OnlyProvided(Accepted(profile, ParsedReply(respond(r).raw, loads).fields, AllowedFields),
                         extracted, respond, loads, r + 1)
  {
    var parsed := ParsedReply(respond(r).raw, loads).fields;
    var next := Accepted(profile, parsed, AllowedFields);
    ProvidedLater(profile, extracted, respond, loads, r);
    forall k | k in next && next[k] != Null
      ensures Provided(k, next[k], extracted, respond, loads, r + 1)
    {
      if k in AllowedFields && k in parsed && parsed[k] != Null {
        assert Offered(respond, loads, r, k, next[k]);
      }
    }
  }

  /** The seeded profile holds only scanned values. */
  lemma SeededProvided(extracted: map<string, Value>, respond: nat -> Reply, loads: string -> Option<Value>)
    ensures OnlyProvided(Seeded(NullProfile(AllowedFields), extracted), extracted, respond, loads, 0)
  {
  }

  /** `history` alternates between the student and the advisor, starting with the first
      message; each of the student's later turns is the stripped reply to the question
      before it. */
  ghost predicate Alternates(history: seq<Turn>, first: string, replies: nat -> string, asked: nat)
  {
    && |history| == 1 + 2 * asked
    && history[0] == Turn(User, Str(first))
    && (forall j :: 0 <= j < asked ==> history[2 * j + 1].role == Assistant)
    && (forall j :: 0 <= j < asked ==> history[2 * j + 2] == Turn(User, Str(Strip(replies(j)))))
  }

  /** After a question, the student's reply is recorded. */
  lemma AskedAlternates(history: seq<Turn>, first: string, replies: nat -> string, asked: nat, question: Value)
    requires Alternates(history, first, replies, asked)
    ensures Alternates(history + [Turn(Assistant, question), Turn(User, Str(Strip(replies(asked))))],
                       first, replies, asked + 1)
  {
    var h := history + [Turn(Assistant, question), Turn(User, Str(Strip(replies(asked))))];
    forall j | 0 <= j < asked + 1
      ensures h[2 * j + 1].role == Assistant && h[2 * j + 2] == Turn(User, Str(Strip(replies(j))))
    {
      if j < asked {
        assert h[2 * j + 1] == history[2 * j + 1];
        assert h[2 * j + 2] == history[2 * j + 2];
      }
    }
  }

  /** The key set the loop keeps: the allowed keys and whatever the scan seeded. */
  ghost function LoopKeys(extracted: map<string, Value>): set<string>
  {
    (set k | k in AllowedFields) + (set k | k in extracted && Truthy(extracted[k]))
  }

  /** How the `while True` loop ended. */
  datatype LoopEnd = LoopRaised | OutOfRounds | Done(profile: map<string, Value>, history: seq<Turn>)

  /** The question the advisor asks after a JSON object with a truthy `next_question`: the
      value itself, or the first element of a list. */
  function NextQuestion(q: Value): (r: Value)
    requires Truthy(q)
    ensures q.List? ==> r == q.items[0]
    ensures !q.List? ==> r == q
  {
    if q.List? then q.items[0] else q
  }

  /** The `while True` loop, started from the seeded profile and the first message. It
      leaves when the model returns a JSON object without a truthy `next_question`. */
  method AdvisorLoop(seeded: map<string, Value>, first: string, extracted: map<string, Value>,
                     respond: nat -> Reply, loads: string -> Option<Value>, replies: nat -> string,
                     maxRounds: nat)
    returns (end: LoopEnd)
    requires seeded.Keys == LoopKeys(extracted)
    requires OnlyProvided(seeded, extracted, respond, loads, 0)
    ensures end.LoopRaised? ==> exists r :: 0 <= r < maxRounds && respond(r).CallRaised?
    ensures (forall r :: 0 <= r < maxRounds ==> respond(r).Answered?) ==> !end.LoopRaised?
    ensures end.Done? ==> end.profile.Keys == LoopKeys(extracted)
    ensures end.Done? ==> OnlyProvided(end.profile, extracted, respond, loads, maxRounds)
    ensures end.Done? ==> exists asked: nat :: Alternates(end.history, first, replies, asked)
  {
    var profile := seeded;
    var history := [Turn(User, Str(first))];
    var asked: nat := 0;
    var round: nat := 0;
    while round < maxRounds
      invariant round <= maxRounds
      invariant forall r :: 0 <= r < round ==> respond(r).Answered?
      invariant profile.Keys == LoopKeys(extracted)
      invariant OnlyProvided(profile, extracted, respond, loads, round)
      invariant Alternates(history, first, replies, asked)
    {
      if respond(round).CallRaised? {
        return LoopRaised;
      }
      var parsed := ParsedReply(respond(round).raw, loads);
      if !parsed.Dict? {
        AskedAlternates(history, first, replies, asked, Str(ClarifyQuestion));
        history := history + [Turn(Assistant, Str(ClarifyQuestion)), Turn(User, Str(Strip(replies(asked))))];
        asked := asked + 1;
        ProvidedLater(profile, extracted, respond, loads, round);
      } else {
        AcceptedProvided(profile, extracted, respond, loads, round);
        AcceptedStaysAllowed(profile, parsed.fields, AllowedFields);
        profile := AcceptFields(profile, parsed.fields, AllowedFields);
        var next := Get(parsed.fields, "next_question");
        if !Truthy(next) {
          ProvidedUpTo(profile, extracted, respond, loads, round + 1, maxRounds);
          return Done(profile, history);
        }
        var question := NextQuestion(next);
        AskedAlternates(history, first, replies, asked, question);
        history := history + [Turn(Assistant, question), Turn(User, Str(Strip(replies(asked))))];
        asked := asked + 1;
      }
      round := round + 1;
    }
    return OutOfRounds;
  }

  lemma {:induction false} ProvidedUpTo(profile: map<string, Value>, extracted: map<string, Value>,
                                        respond: nat -> Reply, loads: string -> Option<Value>, rounds: nat, later: nat)
    requires rounds <= later
    requires OnlyProvided(profile, extracted, respond, loads, rounds)
    ensures OnlyProvided(profile, extracted, respond, loads, later)
    decreases later - rounds
  {
    if rounds < later {
      ProvidedLater(profile, extracted, respond, loads, rounds);
      ProvidedUpTo(profile, extracted, respond, loads, rounds + 1, later);
    }
  }

  /** Every character of `t` is `c`. */
  predicate OnlyChar(t: string, c: char)
  {
    forall i :: 0 <= i < |t| ==> t[i] == c
  }

  /** The length of the run of `c` that starts `s`. */
  function LeadingChars(s: string, c: char): (n: nat)
    ensures n <= |s|
    ensures forall i :: 0 <= i < n ==> s[i] == c
    ensures n < |s| ==> s[n] != c
  {
    if |s| > 0 && s[0] == c then 1 + LeadingChars(s[1..], c) else 0
  }

  /** The length of the run of `c` that ends `s`. */
  function TrailingChars(s: string, c: char): (n: nat)
    ensures n <= |s|
    ensures forall i :: |s| - n <= i < |s| ==> s[i] == c
    ensures n < |s| ==> s[|s| - n - 1] != c
  {
    if |s| > 0 && s[|s| - 1] == c then 1 + TrailingChars(s[..|s| - 1], c) else 0
  }

  /** `.strip(c)` for one character `c`: the leading run of `c` goes, then the trailing one. */
  function StripChar(s: string, c: char): (r: string)
    ensures |r| <= |s|
    ensures r != [] ==> r[0] != c && r[|r| - 1] != c
  {
    var t := s[LeadingChars(s, c)..];
    t[..|t| - TrailingChars(t, c)]
  }

  /** `.strip(c)` removes a run of `c` at each end and nothing else: the result is a
      contiguous piece of `s` with only `c` around it. */
  lemma StripCharSpec(s: string, c: char)
    ensures exists a: nat :: a + |StripChar(s, c)| <= |s| && StripChar(s, c) == s[a..a + |StripChar(s, c)|]
                             && OnlyChar(s[..a], c) && OnlyChar(s[a + |StripChar(s, c)|..], c)
  {
    var a := LeadingChars(s, c);
    var t := s[a..];
    var m := TrailingChars(t, c);
    var r := StripChar(s, c);
    assert r == t[..|t| - m];
    assert s[a..a + |r|] == r;
    assert OnlyChar(s[..a], c);
    assert forall i :: a + |r| <= i < |s| ==> s[i] == t[i - a];
    assert OnlyChar(s[a + |r|..], c);
  }

  /** `input(...).strip().strip('"').strip("'")`: the path as typed, without surrounding
      whitespace and quotes. */
  function CleanPath(typed: string): string
  {
    StripChar(StripChar(Strip(typed), '"'), '\'')
  }

  /** The letter step after the loop: asked only when `lor_text` is still falsy; attached
      when the student answers `y`, the path names an existing file and the reader returns
      non-empty text. */
  function WithLetter(profile: map<string, Value>, choice: string, typedPath: string,
                      pathExists: string -> bool, readLor: string -> Option<string>): (p: map<string, Value>)
    ensures p.Keys == profile.Keys || p.Keys == profile.Keys + {"lor_text"}
    ensures forall k :: k in profile && k != "lor_text" ==> p[k] == profile[k]
    ensures Truthy(Get(profile, "lor_text")) ==> p == profile
    ensures p != profile ==>
              && LowerAll(Strip(choice)) == "y" && CleanPath(typedPath) != "" && pathExists(CleanPath(typedPath))
              && readLor(CleanPath(typedPath)).Some? && readLor(CleanPath(typedPath)).value != ""
              && p == profile["lor_text" := Str(readLor(CleanPath(typedPath)).value)]
    ensures && !Truthy(Get(profile, "lor_text")) && LowerAll(Strip(choice)) == "y"
            && CleanPath(typedPath) != "" && pathExists(CleanPath(typedPath))
            && readLor(CleanPath(typedPath)).Some? && readLor(CleanPath(typedPath)).value != "" ==>
              p == profile["lor_text" := Str(readLor(CleanPath(typedPath)).value)]
  {
    var path := CleanPath(typedPath);
    if !Truthy(Get(profile, "lor_text")) && LowerAll(Strip(choice)) == "y" && path != "" && pathExists(path)
       && readLor(path).Some? && readLor(path).value != ""
    then profile["lor_text" := Str(readLor(path).value)]
    else profile
  }

  /** `preferred_locations` is cleaned when it holds a truthy value that is not a list. */
  function WithCleanLocations(profile: map<string, Value>): (p: map<string, Value>)
    ensures p.Keys == profile.Keys
    ensures forall k :: k in profile && k != LocationsKey ==> p[k] == profile[k]
    ensures LocationsKey in p ==> p[LocationsKey].List? || !Truthy(p[LocationsKey])
    ensures LocationsKey in profile && Truthy(profile[LocationsKey]) && !profile[LocationsKey].List? ==>
              p[LocationsKey] == CleanLocations(profile[LocationsKey])
    ensures !(LocationsKey in profile && Truthy(profile[LocationsKey]) && !profile[LocationsKey].List?) ==>
              p == profile
  {
    if LocationsKey in profile && Truthy(profile[LocationsKey]) && !profile[LocationsKey].List? then
      profile[LocationsKey := CleanLocations(profile[LocationsKey])]
    else profile
  }

  /** `{k: profile.get(k) for k in MANDATORY_FIELDS + OPTIONAL_FIELDS}`. */
  function FinalProfile(profile: map<string, Value>): (p: map<string, Value>)
    ensures forall k :: k in p <==> k in AllowedFields
    ensures forall k :: k in p ==> p[k] == Get(profile, k)
  {
    map k | k in AllowedFields :: Get(profile, k)
  }

  /** A value of the final profile: provided by the student, the letter text read from the
      path they gave, or the cleaning of provided locations. */
  ghost predicate FinalProvided(k: string, v: Value, extracted: map<string, Value>, respond: nat -> Reply,
                                loads: string -> Option<Value>, rounds: nat, typedPath: string,
                                readLor: string -> Option<string>)
  {
    || Provided(k, v, extracted, respond, loads, rounds)
    || (k == "lor_text" && v.Str? && readLor(CleanPath(typedPath)) == Some(v.s))
    || (k == LocationsKey && exists u :: Provided(k, u, extracted, respond, loads, rounds) && v == CleanLocations(u))
  }

  /** The steps after the loop keep every value accounted for. */
  lemma FinishProvided(profile: map<string, Value>, extracted: map<string, Value>, respond: nat -> Reply,
                       loads: string -> Option<Value>, rounds: nat, choice: string, typedPath: string,
                       pathExists: string -> bool, readLor: string -> Option<string>)
    requires OnlyProvided(profile, extracted, respond, loads, rounds)
    ensures var p := FinalProfile(WithCleanLocations(WithLetter(profile, choice, typedPath, pathExists, readLor)));
            forall k :: k in p && p[k] != Null ==>
              FinalProvided(k, p[k], extracted, respond, loads, rounds, typedPath, readLor)
  {
    var lettered := WithLetter(profile, choice, typedPath, pathExists, readLor);
    var cleaned := WithCleanLocations(lettered);
    var p := FinalProfile(cleaned);
    forall k | k in p && p[k] != Null
      ensures FinalProvided(k, p[k], extracted, respond, loads, rounds, typedPath, readLor)
    {
      assert k in cleaned;
      if k == LocationsKey && cleaned[k] != lettered[k] {
        assert lettered[k] == profile[k];
        assert Provided(k, profile[k], extracted, respond, loads, rounds);
      } else if k == "lor_text" && lettered != profile {
      } else {
        assert p[k] == profile[k];
      }
    }
  }

  /** `run_conversational_advisor`. `first` is the student's first message as typed,
      `extracted` what `extract_info_from_text` found in it after stripping; `choice` and
      `typedPath` are the answers to the letter prompts. */
  method ConversationalAdvisor(first: string, extracted: map<string, Value>,
                               respond: nat -> Reply, loads: string -> Option<Value>, replies: nat -> string,
                               maxRounds: nat, choice: string, typedPath: string,
                               pathExists: string -> bool, readLor: string -> Option<string>)
    returns (advice: Advice)
    ensures advice.Raised? ==> exists r :: 0 <= r < maxRounds && respond(r).CallRaised?
    ensures (forall r :: 0 <= r < maxRounds ==> respond(r).Answered?) ==> !advice.Raised?
    ensures advice.Finished? ==> forall k :: k in advice.profile <==> k in AllowedFields
    ensures advice.Finished? ==> forall k :: k in advice.profile && advice.profile[k] != Null ==>
              FinalProvided(k, advice.profile[k], extracted, respond, loads, maxRounds, typedPath, readLor)
    ensures advice.Finished? ==>
              advice.profile[LocationsKey].List? || !Truthy(advice.profile[LocationsKey])
    ensures advice.Finished? ==> exists asked: nat :: Alternates(advice.history, Strip(first), replies, asked)
  {
    var profile := NullProfile(AllowedFields);
    profile := SeedTruthy(profile, extracted);
    SeededProvided(extracted, respond, loads);
    var end := AdvisorLoop(profile, Strip(first), extracted, respond, loads, replies, maxRounds);
    match end
    case LoopRaised => advice := Raised;
    case OutOfRounds => advice := Unfinished;
    case Done(loopProfile, history) =>
      FinishProvided(loopProfile, extracted, respond, loads, maxRounds, choice, typedPath, pathExists, readLor);
      var final := FinalProfile(WithCleanLocations(WithLetter(loopProfile, choice, typedPath, pathExists, readLor)));
      assert LocationsKey in AllowedFields;
      advice := Finished(final, history);
  }
}
