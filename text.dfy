/** String operations the advisor relies on, with Python's meaning:
    `str.strip()`, the substring test `sub in s`, and the span found by a greedy
    DOTALL search for `open .* close`. */
module Text {
  import opened Values

  /** The characters Python's `str.isspace()` accepts, which `str.strip()` removes. */
  predicate IsSpace(c: char)
  {
    || c == ' '
    || ('\t' <= c <= '\r')
    || ('\U{1c}' <= c <= '\U{1f}')
    || c == '\U{85}' || c == '\U{a0}' || c == '\U{1680}'
    || ('\U{2000}' <= c <= '\U{200a}')
    || c == '\U{2028}' || c == '\U{2029}' || c == '\U{202f}' || c == '\U{205f}' || c == '\U{3000}'
  }

  predicate AllSpace(s: string)
  {
    forall i :: 0 <= i < |s| ==> IsSpace(s[i])
  }

  /** How many whitespace characters `s` starts with. */
  function LeadingSpaces(s: string): (n: nat)
    ensures n <= |s|
    ensures forall i :: 0 <= i < n ==> IsSpace(s[i])
    ensures n < |s| ==> !IsSpace(s[n])
  {
    if |s| > 0 && IsSpace(s[0]) then 1 + LeadingSpaces(s[1..]) else 0
  }

  /** How many whitespace characters `s` ends with. */
  function TrailingSpaces(s: string): (n: nat)
    ensures n <= |s|
    ensures forall i :: |s| - n <= i < |s| ==> IsSpace(s[i])
    ensures n < |s| ==> !IsSpace(s[|s| - n - 1])
  {
    if |s| > 0 && IsSpace(s[|s| - 1]) then 1 + TrailingSpaces(s[..|s| - 1]) else 0
  }

  /** Drops leading whitespace: the result is a suffix of `s`, everything cut off is
      whitespace, and the result does not start with whitespace. */
  function TrimStart(s: string): (r: string)
    ensures |r| <= |s| && r == s[|s| - |r|..]
    ensures AllSpace(s[..|s| - |r|])
    ensures r != [] ==> !IsSpace(r[0])
  {
    s[LeadingSpaces(s)..]
  }

  /** Drops trailing whitespace: a prefix of `s`, everything cut off is whitespace,
      and the result does not end with whitespace. */
  function TrimEnd(s: string): (r: string)
    ensures |r| <= |s| && r == s[..|r|]
    ensures AllSpace(s[|r|..])
    ensures r != [] ==> !IsSpace(r[|r| - 1])
  {
    s[..|s| - TrailingSpaces(s)]
  }

  /** `s.strip()`. */
  function Strip(s: string): (r: string)
    ensures |r| <= |s|
    ensures r != [] ==> !IsSpace(r[0]) && !IsSpace(r[|r| - 1])
  {
    TrimEnd(TrimStart(s))
  }

  /** What `strip()` keeps is a contiguous piece of `s` with only whitespace around it;
      it is empty exactly when `s` is all whitespace. */
  lemma StripSpec(s: string)
    ensures exists a: nat :: a + |Strip(s)| <= |s| && Strip(s) == s[a..a + |Strip(s)|]
                             && AllSpace(s[..a]) && AllSpace(s[a + |Strip(s)|..])
    ensures Strip(s) == [] <==> AllSpace(s)
  {
    var t := TrimStart(s);
    var r := TrimEnd(t);
    var a := |s| - |t|;
    assert s[a..a + |r|] == t[..|r|];
    assert s[a + |r|..] == t[|r|..];
    if r == [] {
      assert s == s[..a] + t[|r|..];
    }
  }

  /** Blank text stays blank; `strip()` of a stripped string changes nothing. */
  lemma StripIdempotent(s: string)
    ensures Strip(Strip(s)) == Strip(s)
  {
    var r := Strip(s);
    if r != [] {
      assert !IsSpace(r[0]);
      assert TrimStart(r) == r;
      assert !IsSpace(r[|r| - 1]);
    }
  }

  /** `strip()` adds no character: one absent from `s` is absent from `s.strip()`. */
  lemma StripKeepsOut(s: string, c: char)
    requires c !in s
    ensures c !in Strip(s)
  {
    StripSpec(s);
    var a: nat :| a + |Strip(s)| <= |s| && Strip(s) == s[a..a + |Strip(s)|];
    forall i | 0 <= i < |Strip(s)| ensures Strip(s)[i] != c {
      assert Strip(s)[i] == s[a + i];
    }
  }

  /** The piece `t` occurs in `s` starting at index `a`. */
  ghost predicate OccursAt(s: string, t: string, a: nat)
  {
    a + |t| <= |s| && s[a..a + |t|] == t
  }

  /** Python's `t in s`. */
  predicate Contains(s: string, t: string)
    decreases |s|
  {
    if t <= s then true
    else if s == [] then false
    else Contains(s[1..], t)
  }

  lemma {:induction false} ContainsSpec(s: string, t: string)
    ensures Contains(s, t) <==> exists a: nat :: OccursAt(s, t, a)
    decreases |s|
  {
    if t <= s {
      assert OccursAt(s, t, 0);
    } else if s != [] {
      ContainsSpec(s[1..], t);
      if Contains(s[1..], t) {
        var a: nat :| OccursAt(s[1..], t, a);
        OccursShift(s, t, a);
      }
      if exists a: nat :: OccursAt(s, t, a) {
        var a: nat :| OccursAt(s, t, a);
        if a > 0 {
          OccursShift(s, t, a - 1);
        }
      }
    }
  }

  /** An occurrence in `s[1..]` at `a` is an occurrence in `s` at `a + 1`. */
  lemma OccursShift(s: string, t: string, a: nat)
    requires s != []
    ensures OccursAt(s[1..], t, a) <==> OccursAt(s, t, a + 1)
  {
    if a + |t| <= |s[1..]| {
      assert s[1..][a..a + |t|] == s[a + 1..a + 1 + |t|];
    }
  }

  /** `t` is a contiguous piece of `s`. */
  ghost predicate IsInfix(t: string, s: string)
  {
    exists a: nat :: OccursAt(s, t, a)
  }

  lemma InfixTransitive(u: string, t: string, s: string)
    requires IsInfix(u, t) && IsInfix(t, s)
    ensures IsInfix(u, s)
  {
    var a: nat :| OccursAt(t, u, a);
    var b: nat :| OccursAt(s, t, b);
    forall k | 0 <= k < |u| ensures s[b + a + k] == u[k] {
      assert u[k] == t[a..a + |u|][k] == t[a + k];
      assert t[a + k] == s[b..b + |t|][a + k];
    }
    assert s[b + a..b + a + |u|] == u;
    assert OccursAt(s, u, b + a);
  }

  lemma StripIsInfix(s: string)
    ensures IsInfix(Strip(s), s)
  {
    StripSpec(s);
    var a: nat :| a + |Strip(s)| <= |s| && Strip(s) == s[a..a + |Strip(s)|];
    assert OccursAt(s, Strip(s), a);
  }

  /** Index of the first occurrence of `c` in `s`. */
  function FirstIndex(s: string, c: char): (r: Option<nat>)
    ensures r.Some? ==> r.value < |s| && s[r.value] == c
                        && forall j :: 0 <= j < r.value ==> s[j] != c
    ensures r.None? ==> forall j :: 0 <= j < |s| ==> s[j] != c
  {
    if s == [] then None
    else if s[0] == c then Some(0)
    else match FirstIndex(s[1..], c)
      case None => None
      case Some(k) => Some(k + 1)
  }

  /** Index of the last occurrence of `c` in `s`. */
  function LastIndex(s: string, c: char): (r: Option<nat>)
    ensures r.Some? ==> r.value < |s| && s[r.value] == c
                        && forall j :: r.value < j < |s| ==> s[j] != c
    ensures r.None? ==> forall j :: 0 <= j < |s| ==> s[j] != c
  {
    if s == [] then None
    else if s[|s| - 1] == c then Some(|s| - 1)
    else LastIndex(s[..|s| - 1], c)
  }

  /** `s[i..e]` is a text the pattern `open .* close` (dot matching every character)
      matches when the match starts at `i`. */
  ghost predicate SpanMatches(s: string, open: char, close: char, i: nat, e: nat)
  {
    i + 2 <= e <= |s| && s[i] == open && s[e - 1] == close
  }

  /** What `re.search` returns for the greedy pattern: the leftmost start, and for that
      start the longest match. */
  ghost predicate IsSearchResult(s: string, open: char, close: char, i: nat, e: nat)
  {
    && SpanMatches(s, open, close, i, e)
    && (forall i': nat, e': nat :: SpanMatches(s, open, close, i', e') ==> i <= i')
    && (forall e': nat :: SpanMatches(s, open, close, i, e') ==> e' <= e)
  }

  /** The span `[start, end)` from the first `open` to the last `close`, when some `close`
      comes after the first `open`. */
  function BracketSpan(s: string, open: char, close: char): (r: Option<(nat, nat)>)
    ensures r.Some? ==> r.value.0 + 2 <= r.value.1 <= |s|
  {
    match (FirstIndex(s, open), LastIndex(s, close))
    case (Some(i), Some(j)) => if i < j then Some((i, j + 1)) else None
    case _ => None
  }

  /** `BracketSpan` is exactly the result of the greedy regex search: it exists iff some
      match exists, and then it is the leftmost-longest one. */
  lemma BracketSpanIsSearch(s: string, open: char, close: char)
    ensures BracketSpan(s, open, close).None? <==>
              forall i: nat, e: nat :: !SpanMatches(s, open, close, i, e)
    ensures BracketSpan(s, open, close).Some? ==>
              IsSearchResult(s, open, close, BracketSpan(s, open, close).value.0,
                             BracketSpan(s, open, close).value.1)
  {
    if BracketSpan(s, open, close).Some? {
      var (i, e) := BracketSpan(s, open, close).value;
      assert SpanMatches(s, open, close, i, e);
    }
  }

  /** The span begins with `open`, ends with `close`, and there is no `open` before it and no
      `close` after it. */
  lemma BracketSpanBounds(s: string, open: char, close: char)
    requires BracketSpan(s, open, close).Some?
    ensures var (i, e) := BracketSpan(s, open, close).value;
            && s[i] == open && s[e - 1] == close
            && (forall j :: 0 <= j < i ==> s[j] != open)
            && (forall j :: e <= j < |s| ==> s[j] != close)
  {
  }
}
