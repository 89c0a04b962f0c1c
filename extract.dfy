/** `extract_info_from_text`: the keyword scan that seeds a profile from the student's
    free text. The six single-field patterns are abstracted to the span their first
    capture group covers (or no match); the country scan `re.findall` with its
    case-insensitive alternation is modelled exactly, over ASCII case folding. */
module Extraction {
  import opened Values
  import opened Text

  /** The keys the six single-field patterns fill, in the order they are tried. */
  const CaptureKeys: seq<string> :=
    ["student_name", "current_degree", "graduation_year", "cgpa", "career_goal", "budget"]

  const LocationsKey: string := "preferred_locations"

  /** The alternatives of the country pattern, in the order the regex tries them. */
  const Countries: seq<string> :=
    ["US", "USA", "Canada", "Germany", "UK", "Australia", "France", "Singapore", "Netherlands"]

  /** The names the scan can report: `capitalize()` of every alternative except `USA`,
      which never wins because `US` is tried before it (`UsBeatsUsa`). */
  const ReportedNames: set<string> :=
    set k | 0 <= k < |Countries| && k != 1 :: Capitalize(Countries[k])

  /** ASCII lower and upper case. */
  function Lower(c: char): char
  {
    if 'A' <= c <= 'Z' then (c as int + 32) as char else c
  }

  function Upper(c: char): char
  {
    if 'a' <= c <= 'z' then (c as int - 32) as char else c
  }

  function LowerAll(s: string): string
  {
    if s == [] then [] else [Lower(s[0])] + LowerAll(s[1..])
  }

  /** `s.capitalize()`: first character upper case, the rest lower case. */
  function Capitalize(s: string): (r: string)
    ensures |r| == |s|
    ensures |s| > 0 ==> r[0] == Upper(s[0])
    ensures forall i :: 0 < i < |s| ==> r[i] == Lower(s[i])
  {
    if s == [] then [] else LowerAllSpec(s[1..]); [Upper(s[0])] + LowerAll(s[1..])
  }

  /** Lowering is done character by character. */
  lemma {:induction false} LowerAllSpec(s: string)
    ensures |LowerAll(s)| == |s| && forall i :: 0 <= i < |s| ==> LowerAll(s)[i] == Lower(s[i])
  {
    if s != [] {
      LowerAllSpec(s[1..]);
    }
  }

  /** The two texts are equal when case is ignored (the `re.IGNORECASE` comparison). */
  predicate CaseEq(a: string, b: string)
  {
    |a| == |b| && forall i :: 0 <= i < |a| ==> Lower(a[i]) == Lower(b[i])
  }

  /** The alternative `alt` matches the text at position `p`. */
  predicate MatchesAt(text: string, p: nat, alt: string)
  {
    p + |alt| <= |text| && CaseEq(text[p..p + |alt|], alt)
  }

  /** The first alternative, from the `k`-th on, that matches at `p`: the regex engine
      tries them left to right and takes the first that matches. */
  function FirstAlternative(text: string, p: nat, k: nat): (r: Option<nat>)
    ensures r.Some? ==> k <= r.value < |Countries| && MatchesAt(text, p, Countries[r.value])
                        && forall j :: k <= j < r.value ==> !MatchesAt(text, p, Countries[j])
    ensures r.None? ==> forall j :: k <= j < |Countries| ==> !MatchesAt(text, p, Countries[j])
    decreases |Countries| - k
  {
    if k >= |Countries| then None
    else if MatchesAt(text, p, Countries[k]) then Some(k)
    else FirstAlternative(text, p, k + 1)
  }

  /** `USA` is never the alternative chosen: wherever it matches, `US` matches first. */
  lemma UsBeatsUsa(text: string, p: nat)
    ensures FirstAlternative(text, p, 0) != Some(1)
  {
    if MatchesAt(text, p, Countries[1]) {
      assert Countries[0] == "US" && Countries[1] == "USA";
      assert text[p..p + 2] == text[p..p + 3][..2];
      assert MatchesAt(text, p, Countries[0]);
    }
  }

  /** The matched text is case-equal to one of the alternatives other than `USA`. */
  ghost predicate MatchedName(x: string)
  {
    exists k :: 0 <= k < |Countries| && k != 1 && CaseEq(x, Countries[k])
  }

  /** `re.findall` from position `p` on: at each position the first matching alternative
      is taken and the scan resumes after it; where none matches the scan moves one on. */
  function FindAll(text: string, p: nat): (r: seq<string>)
    ensures forall i :: 0 <= i < |r| ==> MatchedName(r[i])
    decreases |text| - p
  {
    if p >= |text| then []
    else match FirstAlternative(text, p, 0)
      case Some(k) =>
        UsBeatsUsa(text, p);
        [text[p..p + |Countries[k]|]] + FindAll(text, p + |Countries[k]|)
      case None => FindAll(text, p + 1)
  }

  /** A match at `p` is reported. */
  lemma FindAllAtMatch(text: string, p: nat)
    requires p < |text| && FirstAlternative(text, p, 0).Some?
    ensures FindAll(text, p) != []
  {
  }

  /** Where nothing matches, the scan moves one on. */
  lemma FindAllSkip(text: string, p: nat)
    requires p < |text| && FirstAlternative(text, p, 0).None?
    ensures FindAll(text, p) == FindAll(text, p + 1)
  {
  }

  /** With no match from `p` on, the scan finds nothing. */
  lemma {:induction false} FindAllNone(text: string, p: nat)
    requires forall q :: p <= q < |text| ==> FirstAlternative(text, q, 0).None?
    ensures FindAll(text, p) == []
    decreases |text| - p
  {
    if p < |text| {
      FindAllSkip(text, p);
      FindAllNone(text, p + 1);
    }
  }

  /** A match at `q` at or after `p` makes the scan from `p` find something. */
  lemma {:induction false} FindAllSome(text: string, p: nat, q: nat)
    requires p <= q < |text| && FirstAlternative(text, q, 0).Some?
    ensures FindAll(text, p) != []
    decreases q - p
  {
    if p == q || FirstAlternative(text, p, 0).Some? {
      FindAllAtMatch(text, p);
    } else {
      FindAllSkip(text, p);
      FindAllSome(text, p + 1, q);
    }
  }

  /** The scan finds nothing exactly when no alternative matches at any position. */
  lemma FindAllEmptyIff(text: string, p: nat)
    ensures FindAll(text, p) == [] <==>
            forall q :: p <= q < |text| ==> FirstAlternative(text, q, 0).None?
  {
    if q :| p <= q < |text| && FirstAlternative(text, q, 0).Some? {
      FindAllSome(text, p, q);
    } else {
      FindAllNone(text, p);
    }
  }

  /** Case-equal texts capitalize alike. */
  lemma CapitalizeCaseEq(a: string, b: string)
    requires CaseEq(a, b)
    ensures Capitalize(a) == Capitalize(b)
  {
    if a != [] {
      assert Upper(a[0]) == Upper(Lower(a[0])) == Upper(Lower(b[0])) == Upper(b[0]);
      LowerAllSpec(a[1..]);
      LowerAllSpec(b[1..]);
      assert LowerAll(a[1..]) == LowerAll(b[1..]);
    }
  }

  /** Every capitalized match is one of the eight reported names. */
  lemma CapitalizedMatch(x: string)
    requires MatchedName(x)
    ensures Capitalize(x) in ReportedNames
  {
    var k :| 0 <= k < |Countries| && k != 1 && CaseEq(x, Countries[k]);
    CapitalizeCaseEq(x, Countries[k]);
  }

  /** `list(set(xs))`: each element once. The order Python gives is that of the set's
      iteration; this model keeps first occurrences. The facts that hold whatever the order
      are the ensures of `Dedup` and `Locations` and the lemma `LocationsAreMatches`. */
  function Dedup(xs: seq<string>): (r: seq<string>)
    ensures forall x :: x in r <==> x in xs
    ensures forall i, j :: 0 <= i < j < |r| ==> r[i] != r[j]
  {
    if xs == [] then []
    else
      var init := Dedup(xs[..|xs| - 1]);
      var last := xs[|xs| - 1];
      assert xs == xs[..|xs| - 1] + [last];
      if last in init then init else init + [last]
  }

  /** `[c.capitalize() for c in countries_match]`. */
  function CapitalizeAll(xs: seq<string>): (r: seq<string>)
    ensures |r| == |xs| && forall i :: 0 <= i < |xs| ==> r[i] == Capitalize(xs[i])
  {
    seq(|xs|, i requires 0 <= i < |xs| => Capitalize(xs[i]))
  }

  /** The names stored under `preferred_locations`. */
  function Locations(text: string): (r: seq<string>)
    ensures forall i, j :: 0 <= i < j < |r| ==> r[i] != r[j]
    ensures forall x :: x in r ==> x in ReportedNames
  {
    var found := FindAll(text, 0);
    var names := CapitalizeAll(found);
    forall x | x in names ensures x in ReportedNames {
      var i :| 0 <= i < |names| && names[i] == x;
      CapitalizedMatch(found[i]);
    }
    Dedup(names)
  }

  /** The stored names are exactly the capitalised matches, each once. */
  lemma LocationsAreMatches(text: string)
    ensures forall x :: x in Locations(text) <==>
              exists i :: 0 <= i < |FindAll(text, 0)| && x == Capitalize(FindAll(text, 0)[i])
  {
    var found := FindAll(text, 0);
    var names := CapitalizeAll(found);
    var r := Locations(text);
    assert r == Dedup(names);
    forall x ensures x in r <==> exists i :: 0 <= i < |found| && x == Capitalize(found[i]) {
      assert x in r <==> x in names;
      if x in names {
        var i :| 0 <= i < |names| && names[i] == x;
        assert x == Capitalize(found[i]);
      }
      if exists i :: 0 <= i < |found| && x == Capitalize(found[i]) {
        var i :| 0 <= i < |found| && x == Capitalize(found[i]);
        assert names[i] == x;
      }
    }
  }

  /** Some name is reported exactly when some alternative matches somewhere. */
  lemma LocationsFound(text: string)
    ensures Locations(text) != [] <==> exists q :: 0 <= q < |text| && FirstAlternative(text, q, 0).Some?
  {
    FindAllEmptyIff(text, 0);
    var found := FindAll(text, 0);
    if found != [] {
      assert Capitalize(found[0]) in CapitalizeAll(found);
    }
  }

  /** The span `[start, end)` the first capture group of a pattern covers. */
  type Span = (nat, nat)

  /** What the six single-field patterns captured, `None` where a pattern did not match.
      The patterns themselves (`\b(?:i'?m|i am|my name is)\s+([A-Z][a-z]+)` and the like)
      are not modelled, only that a capture is a span of the input. */
  datatype Captures = Captures(name: Option<Span>, degree: Option<Span>, year: Option<Span>,
                               cgpa: Option<Span>, goal: Option<Span>, budget: Option<Span>)

  predicate SpanInText(text: string, c: Option<Span>)
  {
    c.Some? ==> c.value.0 <= c.value.1 <= |text|
  }

  predicate CapturesInText(text: string, caps: Captures)
  {
    && SpanInText(text, caps.name) && SpanInText(text, caps.degree) && SpanInText(text, caps.year)
    && SpanInText(text, caps.cgpa) && SpanInText(text, caps.goal) && SpanInText(text, caps.budget)
  }

  /** `match.group(1).strip()`. */
  function CapturedText(text: string, c: Span): string
    requires c.0 <= c.1 <= |text|
  {
    Strip(text[c.0..c.1])
  }

  /** A stripped capture is a piece of the input, so every single-field value
      `ExtractInfo` records is a substring of the text. */
  lemma CapturedIsInfix(text: string, c: Span)
    requires c.0 <= c.1 <= |text|
    ensures IsInfix(CapturedText(text, c), text)
  {
    StripIsInfix(text[c.0..c.1]);
    assert OccursAt(text, text[c.0..c.1], c.0);
    InfixTransitive(Strip(text[c.0..c.1]), text[c.0..c.1], text);
  }

  /** The key is present exactly when its pattern matched, with the stripped capture. */
  predicate Recorded(info: map<string, Value>, key: string, text: string, c: Option<Span>)
    requires SpanInText(text, c)
  {
    && (key in info <==> c.Some?)
    && (c.Some? ==> info[key] == Str(CapturedText(text, c.value)))
  }

  /** `if m: info[key] = m.group(1).strip()` on a key not yet present: `key` is recorded
      and every other key keeps its value. */
  method RecordCapture(info: map<string, Value>, key: string, text: string, c: Option<Span>)
    returns (info': map<string, Value>)
    requires SpanInText(text, c) && key !in info
    ensures Recorded(info', key, text, c)
    ensures info'.Keys <= info.Keys + {key}
    ensures forall k :: k != key ==> (k in info' <==> k in info)
    ensures forall k :: k in info ==> info'[k] == info[k]
  {
    info' := info;
    if c.Some? {
      info' := info[key := Str(CapturedText(text, c.value))];
    }
  }

  /** The single-field part of `extract_info_from_text`: each key is present exactly when
      its pattern matched, holding the stripped capture, and no other key appears. */
  method ExtractCaptures(text: string, caps: Captures) returns (info: map<string, Value>)
    requires CapturesInText(text, caps)
    ensures Recorded(info, "student_name", text, caps.name)
    ensures Recorded(info, "current_degree", text, caps.degree)
    ensures Recorded(info, "graduation_year", text, caps.year)
    ensures Recorded(info, "cgpa", text, caps.cgpa)
    ensures Recorded(info, "career_goal", text, caps.goal)
    ensures Recorded(info, "budget", text, caps.budget)
    ensures forall k :: k in info ==> k in CaptureKeys
  {
    info := map[];
    info := RecordCapture(info, "student_name", text, caps.name);
    info := RecordCapture(info, "current_degree", text, caps.degree);
    info := RecordCapture(info, "graduation_year", text, caps.year);
    info := RecordCapture(info, "cgpa", text, caps.cgpa);
    info := RecordCapture(info, "career_goal", text, caps.goal);
    info := RecordCapture(info, "budget", text, caps.budget);
  }

  /** The whole dictionary `extract_info_from_text` returns: the captured fields, and
      `preferred_locations` exactly when some country alternative matched somewhere, holding
      the deduplicated capitalized matches. */
  method ExtractInfo(text: string, caps: Captures) returns (info: map<string, Value>)
    requires CapturesInText(text, caps)
    ensures Recorded(info, "student_name", text, caps.name)
    ensures Recorded(info, "current_degree", text, caps.degree)
    ensures Recorded(info, "graduation_year", text, caps.year)
    ensures Recorded(info, "cgpa", text, caps.cgpa)
    ensures Recorded(info, "career_goal", text, caps.goal)
    ensures Recorded(info, "budget", text, caps.budget)
    ensures LocationsKey in info <==> Locations(text) != []
    ensures LocationsKey in info ==> info[LocationsKey] == List(StrList(Locations(text)))
    ensures forall k :: k in info ==> k in CaptureKeys || k == LocationsKey
  {
    info := ExtractCaptures(text, caps);
    assert LocationsKey !in CaptureKeys;
    var found := FindAll(text, 0);
    FindAllEmptyIff(text, 0);
    LocationsFound(text);
    if found != [] {
      info := info[LocationsKey := List(StrList(Locations(text)))];
    }
  }

  /** "USA" is reported as "Us": the alternative `US` matches first and the trailing
      "A" matches nothing. */
  lemma UsaReadsAsUs()
    ensures Locations("USA") == ["Us"]
  {
    assert Countries[0] == "US";
    assert "USA"[0..2] == "US";
    assert MatchesAt("USA", 0, Countries[0]);
    assert FirstAlternative("USA", 0, 0) == Some(0);
    assert FindAll("USA", 2) == [];
    assert FindAll("USA", 0) == ["US"];
    assert Capitalize("US") == "Us";
  }

  /** No alternative matches in "focus" before position 3. */
  lemma FocusNoEarlyMatch(q: nat)
    requires q < 3
    ensures FirstAlternative("focus", q, 0).None?
  {
    forall k | 0 <= k < |Countries| ensures !MatchesAt("focus", q, Countries[k]) {
      var alt := Countries[k];
      if q + |alt| <= 5 {
        assert alt == "US" || alt == "USA" || alt == "UK";
        assert "focus"[q..q + |alt|][0] == "focus"[q] != 'u';
      }
    }
  }

  /** The raw scan of "focus" finds the "us" at its end. */
  lemma FocusFindsUs()
    ensures FindAll("focus", 0) == ["us"]
  {
    assert Countries[0] == "US";
    assert "focus"[3..5] == "us";
    assert MatchesAt("focus", 3, Countries[0]);
    assert FirstAlternative("focus", 3, 0) == Some(0);
    assert FindAll("focus", 5) == [];
    assert FindAll("focus", 3) == ["us"];
    FocusNoEarlyMatch(2);
    FocusNoEarlyMatch(1);
    FocusNoEarlyMatch(0);
  }

  /** The scan has no word boundary: "focus" contains "us". */
  lemma NoWordBoundary()
    ensures Locations("focus") == ["Us"]
  {
    FocusFindsUs();
    assert Capitalize("us") == "Us";
  }
}
