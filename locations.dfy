/** `clean_user_pref_locations` and `try_json_loads`: turning what the student typed for
    preferred locations into a list of names, and a `json.loads` that answers `None`
    instead of raising. */
module LocationCleaning {
  import opened Values
  import opened Text

  /** A character `\w` accepts (ASCII letters, digits and `_`). */
  predicate IsWordChar(c: char)
  {
    || ('a' <= c <= 'z') || ('A' <= c <= 'Z') || ('0' <= c <= '9') || c == '_'
  }

  /** `\band\b` matches at `p`: the word "and" with no word character on either side. */
  predicate AndAt(s: string, p: nat)
  {
    && p + 3 <= |s| && s[p] == 'a' && s[p + 1] == 'n' && s[p + 2] == 'd'
    && (p == 0 || !IsWordChar(s[p - 1]))
    && (p + 3 == |s| || !IsWordChar(s[p + 3]))
  }

  /** Length of the separator `,|\band\b` matched at `p`, or 0 where none matches. */
  function SeparatorAt(s: string, p: nat): (n: nat)
    requires p < |s|
    ensures n == 1 <==> s[p] == ','
    ensures n == 3 <==> AndAt(s, p)
    ensures n == 0 <==> s[p] != ',' && !AndAt(s, p)
  {
    if s[p] == ',' then 1 else if AndAt(s, p) then 3 else 0
  }

  lemma NoSeparatorNoComma(s: string, start: nat, p: nat)
    requires start <= p <= |s|
    requires forall i :: start <= i < p ==> SeparatorAt(s, i) == 0
    ensures ',' !in s[start..p]
  {
    forall i | start <= i < p ensures s[i] != ',' {
      assert SeparatorAt(s, i) == 0;
    }
  }

  /** `re.split(r",|\band\b", s)` continued from `p`, the current piece having started at
      `start`: the pieces between separators, empty ones included. */
  function Pieces(s: string, start: nat, p: nat): (r: seq<string>)
    requires start <= p <= |s|
    requires forall i :: start <= i < p ==> SeparatorAt(s, i) == 0
    ensures |r| >= 1
    ensures forall i :: 0 <= i < |r| ==> ',' !in r[i]
    decreases |s| - p
  {
    if p == |s| then NoSeparatorNoComma(s, start, p); [s[start..]]
    else if SeparatorAt(s, p) > 0 then
      NoSeparatorNoComma(s, start, p);
      [s[start..p]] + Pieces(s, p + SeparatorAt(s, p), p + SeparatorAt(s, p))
    else Pieces(s, start, p + 1)
  }

  function Split(s: string): (r: seq<string>)
    ensures |r| >= 1 && forall i :: 0 <= i < |r| ==> ',' !in r[i]
  {
    Pieces(s, 0, 0)
  }

  /** `piece` sits in `s` at `b`, and no separator begins inside it. */
  ghost predicate PieceAt(s: string, piece: string, b: nat)
  {
    && b + |piece| <= |s| && piece == s[b..b + |piece|]
    && forall q :: b <= q < b + |piece| ==> SeparatorAt(s, q) == 0
  }

  /** `r` are the pieces of `s` from `b` on: the first sits at `b`, and either it runs to
      the end of `s`, or one separator follows it and the other pieces begin right after. */
  ghost predicate PiecesFrom(s: string, r: seq<string>, b: nat)
    decreases |r|
  {
    && |r| >= 1 && PieceAt(s, r[0], b)
    && var e := b + |r[0]|;
       if |r| == 1 then e == |s|
       else e < |s| && SeparatorAt(s, e) > 0 && PiecesFrom(s, r[1..], e + SeparatorAt(s, e))
  }

  /** A stretch with no separator in it is a piece. */
  lemma SliceIsPiece(s: string, start: nat, p: nat)
    requires start <= p <= |s|
    requires forall i :: start <= i < p ==> SeparatorAt(s, i) == 0
    ensures PieceAt(s, s[start..p], start)
  {
  }

  /** A separator at `p` closes the piece `s[start..p]` in front of the pieces after it. */
  lemma PiecesFromCons(s: string, start: nat, p: nat, rest: seq<string>)
    requires start <= p < |s| && SeparatorAt(s, p) > 0
    requires forall i :: start <= i < p ==> SeparatorAt(s, i) == 0
    requires PiecesFrom(s, rest, p + SeparatorAt(s, p))
    ensures PiecesFrom(s, [s[start..p]] + rest, start)
  {
    var r := [s[start..p]] + rest;
    SliceIsPiece(s, start, p);
    assert r[0] == s[start..p] && r[1..] == rest;
  }

  lemma {:induction false} PiecesSpec(s: string, start: nat, p: nat)
    requires start <= p <= |s|
    requires forall i :: start <= i < p ==> SeparatorAt(s, i) == 0
    ensures PiecesFrom(s, Pieces(s, start, p), start)
    decreases |s| - p, 1
  {
    if p == |s| {
      SliceIsPiece(s, start, p);
      assert s[start..p] == s[start..];
    } else if SeparatorAt(s, p) > 0 {
      PiecesSpecAtSeparator(s, start, p);
    } else {
      assert Pieces(s, start, p) == Pieces(s, start, p + 1);
      PiecesSpec(s, start, p + 1);
    }
  }

  /** The step of `PiecesSpec` where a separator begins at `p`. */
  lemma {:induction false} PiecesSpecAtSeparator(s: string, start: nat, p: nat)
    requires start <= p < |s| && SeparatorAt(s, p) > 0
    requires forall i :: start <= i < p ==> SeparatorAt(s, i) == 0
    ensures PiecesFrom(s, Pieces(s, start, p), start)
    decreases |s| - p, 0
  {
    var n := SeparatorAt(s, p);
    var rest := Pieces(s, p + n, p + n);
    assert Pieces(s, start, p) == [s[start..p]] + rest;
    PiecesSpec(s, p + n, p + n);
    PiecesFromCons(s, start, p, rest);
  }

  /** `Split` cuts `s` at every `,` and every `\band\b`, scanning left to right. */
  lemma SplitSpec(s: string)
    ensures PiecesFrom(s, Split(s), 0)
  {
    PiecesSpec(s, 0, 0);
  }

  /** `sep.join(parts)`. */
  function Join(parts: seq<string>, sep: string): string
  {
    if |parts| == 0 then ""
    else if |parts| == 1 then parts[0]
    else parts[0] + sep + Join(parts[1..], sep)
  }

  lemma JoinCons(x: string, rest: seq<string>, sep: string)
    requires |rest| >= 1
    ensures Join([x] + rest, sep) == x + sep + Join(rest, sep)
  {
    assert ([x] + rest)[1..] == rest;
  }

  /** A comma closes the current piece; joining puts it back. */
  lemma JoinAtComma(s: string, start: nat, p: nat)
    requires start <= p < |s| && s[p] == ','
    requires forall i :: start <= i < p ==> SeparatorAt(s, i) == 0
    requires Join(Pieces(s, p + 1, p + 1), ",") == s[p + 1..]
    ensures Join(Pieces(s, start, p), ",") == s[start..]
  {
    var rest := Pieces(s, p + 1, p + 1);
    assert Pieces(s, start, p) == [s[start..p]] + rest;
    JoinCons(s[start..p], rest, ",");
    assert s[start..] == s[start..p] + "," + s[p + 1..];
  }

  /** Without the word "and", splitting is undone by joining with commas. */
  lemma {:induction false} JoinPieces(s: string, start: nat, p: nat)
    requires start <= p <= |s|
    requires forall i :: start <= i < p ==> SeparatorAt(s, i) == 0
    requires forall q :: p <= q < |s| ==> !AndAt(s, q)
    ensures Join(Pieces(s, start, p), ",") == s[start..]
    decreases |s| - p
  {
    if p < |s| {
      if s[p] == ',' {
        JoinPieces(s, p + 1, p + 1);
        JoinAtComma(s, start, p);
      } else {
        assert Pieces(s, start, p) == Pieces(s, start, p + 1);
        JoinPieces(s, start, p + 1);
      }
    }
  }

  lemma SplitJoinRoundTrip(s: string)
    requires forall q :: 0 <= q < |s| ==> !AndAt(s, q)
    ensures Join(Split(s), ",") == s
  {
    JoinPieces(s, 0, 0);
  }

  /** Every part stripped. */
  function StripAll(parts: seq<string>): (r: seq<string>)
    ensures |r| == |parts| && forall j :: 0 <= j < |parts| ==> r[j] == Strip(parts[j])
  {
    seq(|parts|, j requires 0 <= j < |parts| => Strip(parts[j]))
  }

  /** The non-empty names, in order. */
  function NonEmpty(names: seq<string>): (r: seq<string>)
    ensures |r| <= |names|
    ensures forall i :: 0 <= i < |r| ==> r[i] != ""
  {
    if names == [] then []
    else if names[0] != "" then [names[0]] + NonEmpty(names[1..])
    else NonEmpty(names[1..])
  }

  /** Every name kept is one of the names given. */
  lemma {:induction false} NonEmptyFrom(names: seq<string>, i: nat) returns (j: nat)
    requires i < |NonEmpty(names)|
    ensures j < |names| && NonEmpty(names)[i] == names[j]
  {
    if names[0] != "" && i == 0 {
      j := 0;
    } else {
      var k := if names[0] != "" then i - 1 else i;
      assert NonEmpty(names)[i] == NonEmpty(names[1..])[k];
      var j' := NonEmptyFrom(names[1..], k);
      j := j' + 1;
    }
  }

  /** Nothing is kept exactly when every name is empty. */
  lemma {:induction false} NonEmptyEmptyIff(names: seq<string>)
    ensures NonEmpty(names) == [] <==> forall j :: 0 <= j < |names| ==> names[j] == ""
  {
    if names != [] {
      NonEmptyEmptyIff(names[1..]);
      assert forall j :: 1 <= j < |names| ==> names[j] == names[1..][j - 1];
    }
  }

  /** Names that are all non-empty are kept as they are. */
  lemma {:induction false} NonEmptyKeepsAll(names: seq<string>)
    requires forall j :: 0 <= j < |names| ==> names[j] != ""
    ensures NonEmpty(names) == names
  {
    if names != [] {
      NonEmptyKeepsAll(names[1..]);
    }
  }

  /** How many of `names` are non-empty. */
  function CountNonEmpty(names: seq<string>): (n: nat)
    ensures n <= |names|
  {
    if names == [] then 0
    else (if names[0] != "" then 1 else 0) + CountNonEmpty(names[1..])
  }

  /** One name more counts one more exactly when it is non-empty. */
  lemma {:induction false} CountNonEmptySnoc(names: seq<string>, x: string)
    ensures CountNonEmpty(names + [x]) == CountNonEmpty(names) + (if x != "" then 1 else 0)
  {
    if names != [] {
      assert (names + [x])[1..] == names[1..] + [x];
      CountNonEmptySnoc(names[1..], x);
    } else {
      assert ([x])[1..] == [];
    }
  }

  /** The filter keeps one name for every non-empty name. */
  lemma {:induction false} NonEmptyLength(names: seq<string>)
    ensures |NonEmpty(names)| == CountNonEmpty(names)
  {
    if names != [] {
      NonEmptyLength(names[1..]);
    }
  }

  /** Every non-empty name is kept, at the position given by the number of non-empty
      names before it. */
  lemma {:induction false} NonEmptyKeeps(names: seq<string>, j: nat)
    requires j < |names| && names[j] != ""
    ensures CountNonEmpty(names[..j]) < |NonEmpty(names)|
    ensures NonEmpty(names)[CountNonEmpty(names[..j])] == names[j]
  {
    if j == 0 {
      assert names[..0] == [];
    } else {
      NonEmptyKeeps(names[1..], j - 1);
      assert names[..j][1..] == names[1..][..j - 1];
      assert names[..j][0] == names[0];
    }
  }

  /** Names are kept in the order they were given. */
  lemma NonEmptyOrder(names: seq<string>, j1: nat, j2: nat)
    requires j1 < j2 <= |names| && names[j1] != ""
    ensures CountNonEmpty(names[..j1]) < CountNonEmpty(names[..j2])
    decreases j2
  {
    if j2 == j1 + 1 {
      assert names[..j2] == names[..j1] + [names[j1]];
      CountNonEmptySnoc(names[..j1], names[j1]);
    } else {
      NonEmptyOrder(names, j1, j2 - 1);
      assert names[..j2] == names[..j2 - 1] + [names[j2 - 1]];
      CountNonEmptySnoc(names[..j2 - 1], names[j2 - 1]);
    }
  }

  /** Every non-empty name, at the position given by the number of non-empty names
      before it. */
  lemma NonEmptyComplete(names: seq<string>)
    ensures forall j :: 0 <= j < |names| && names[j] != "" ==>
              && CountNonEmpty(names[..j]) < |NonEmpty(names)|
              && NonEmpty(names)[CountNonEmpty(names[..j])] == names[j]
  {
    forall j | 0 <= j < |names| && names[j] != ""
      ensures && CountNonEmpty(names[..j]) < |NonEmpty(names)|
              && NonEmpty(names)[CountNonEmpty(names[..j])] == names[j]
    {
      NonEmptyKeeps(names, j);
    }
  }

  /** `[p.strip() for p in parts if p.strip()]`. */
  function Cleaned(parts: seq<string>): (r: seq<string>)
    ensures |r| <= |parts|
    ensures forall i :: 0 <= i < |r| ==> r[i] != ""
  {
    NonEmpty(StripAll(parts))
  }

  /** Nothing is left exactly when every part is blank. */
  lemma CleanedEmptyIff(parts: seq<string>)
    ensures Cleaned(parts) == [] <==> forall j :: 0 <= j < |parts| ==> Strip(parts[j]) == ""
  {
    NonEmptyEmptyIff(StripAll(parts));
  }

  /** Every cleaned name is the stripped form of one of the parts. */
  lemma CleanedFromParts(parts: seq<string>, i: nat) returns (j: nat)
    requires i < |Cleaned(parts)|
    ensures j < |parts| && Cleaned(parts)[i] == Strip(parts[j])
  {
    j := NonEmptyFrom(StripAll(parts), i);
  }

  /** The list has one name per part that is not blank, and the part `j`, stripped, comes
      right after the names of the non-blank parts before it: no non-blank part is dropped
      and the order of the parts is kept. */
  lemma CleanedComplete(parts: seq<string>)
    ensures |Cleaned(parts)| == CountNonEmpty(StripAll(parts))
    ensures forall j :: 0 <= j < |parts| && Strip(parts[j]) != "" ==>
              && CountNonEmpty(StripAll(parts)[..j]) < |Cleaned(parts)|
              && Cleaned(parts)[CountNonEmpty(StripAll(parts)[..j])] == Strip(parts[j])
  {
    NonEmptyLength(StripAll(parts));
    NonEmptyComplete(StripAll(parts));
  }

  /** Every part that is not blank is kept, stripped, after the names of the non-blank parts
      before it; so every such part is kept, and in order. */
  lemma CleanedKeepsEveryName(parts: seq<string>, j: nat)
    requires j < |parts| && Strip(parts[j]) != ""
    ensures CountNonEmpty(StripAll(parts)[..j]) < |Cleaned(parts)|
    ensures Cleaned(parts)[CountNonEmpty(StripAll(parts)[..j])] == Strip(parts[j])
    ensures Strip(parts[j]) in Cleaned(parts)
  {
    NonEmptyKeeps(StripAll(parts), j);
  }

  /** Of two non-blank parts, the earlier one's name comes first. */
  lemma CleanedInOrder(parts: seq<string>, j1: nat, j2: nat)
    requires j1 < j2 < |parts| && Strip(parts[j1]) != "" && Strip(parts[j2]) != ""
    ensures CountNonEmpty(StripAll(parts)[..j1]) < CountNonEmpty(StripAll(parts)[..j2])
  {
    NonEmptyOrder(StripAll(parts), j1, j2);
  }

  /** A part that is already stripped and non-empty is kept as it is. */
  lemma CleanedKeepsTidy(parts: seq<string>)
    requires forall j :: 0 <= j < |parts| ==> parts[j] != "" && Strip(parts[j]) == parts[j]
    ensures Cleaned(parts) == parts
  {
    assert StripAll(parts) == parts;
    NonEmptyKeepsAll(parts);
  }

  /** `clean_user_pref_locations(value)`. A falsy value gives `None`, a non-empty list comes
      back as it is, a string becomes the list of its non-blank stripped pieces (`None` when
      there are none), and every other value gives `None`. */
  function CleanLocations(value: Value): (r: Value)
    ensures !Truthy(value) ==> r == Null
    ensures Truthy(value) && value.List? ==> r == value
    ensures !value.Str? && !value.List? ==> r == Null
    ensures value.Str? && r != Null ==>
              && r.List? && r.items != []
              && forall e :: e in r.items ==> e.Str? && e.s != ""
  {
    if !Truthy(value) then Null
    else if value.List? then value
    else if value.Str? then
      var cleaned := Cleaned(Split(value.s));
      if cleaned == [] then Null else List(StrList(cleaned))
    else Null
  }

  /** Each cleaned name is a stripped part and, when no part holds a comma, holds none. */
  lemma CleanedNameOrigin(parts: seq<string>, i: nat)
    requires i < |Cleaned(parts)|
    requires forall j :: 0 <= j < |parts| ==> ',' !in parts[j]
    ensures exists j :: 0 <= j < |parts| && Cleaned(parts)[i] == Strip(parts[j])
    ensures ',' !in Cleaned(parts)[i]
  {
    var j := CleanedFromParts(parts, i);
    StripKeepsOut(parts[j], ',');
  }

  /** A string gives `None` exactly when every piece between separators is blank;
      otherwise each name is a stripped piece of the string and holds no comma. */
  lemma StringLocationsCases(s: string)
    requires s != ""
    ensures CleanLocations(Str(s)) == Null <==> forall j :: 0 <= j < |Split(s)| ==> Strip(Split(s)[j]) == ""
    ensures CleanLocations(Str(s)) != Null ==>
              CleanLocations(Str(s)) == List(StrList(Cleaned(Split(s))))
              && forall i :: 0 <= i < |Cleaned(Split(s))| ==>
                   && (exists j :: 0 <= j < |Split(s)| && Cleaned(Split(s))[i] == Strip(Split(s)[j]))
                   && ',' !in Cleaned(Split(s))[i]
  {
    var parts := Split(s);
    CleanedEmptyIff(parts);
    forall i | 0 <= i < |Cleaned(parts)|
      ensures (exists j :: 0 <= j < |parts| && Cleaned(parts)[i] == Strip(parts[j]))
              && ',' !in Cleaned(parts)[i]
    {
      CleanedNameOrigin(parts, i);
    }
  }

  /** `StringLocationsCases`, and besides: there is one name per non-blank piece, and the
      non-blank piece `j` is the name right after those of the non-blank pieces before it,
      so no non-blank piece is dropped and the order is kept. */
  lemma StringLocations(s: string)
    requires s != ""
    ensures CleanLocations(Str(s)) == Null <==> forall j :: 0 <= j < |Split(s)| ==> Strip(Split(s)[j]) == ""
    ensures CleanLocations(Str(s)) != Null ==>
              CleanLocations(Str(s)) == List(StrList(Cleaned(Split(s))))
              && forall i :: 0 <= i < |Cleaned(Split(s))| ==>
                   && (exists j :: 0 <= j < |Split(s)| && Cleaned(Split(s))[i] == Strip(Split(s)[j]))
                   && ',' !in Cleaned(Split(s))[i]
    ensures |Cleaned(Split(s))| == CountNonEmpty(StripAll(Split(s)))
    ensures forall j :: 0 <= j < |Split(s)| && Strip(Split(s)[j]) != "" ==>
              && CountNonEmpty(StripAll(Split(s))[..j]) < |Cleaned(Split(s))|
              && Cleaned(Split(s))[CountNonEmpty(StripAll(Split(s))[..j])] == Strip(Split(s)[j])
  {
    StringLocationsCases(s);
    CleanedComplete(Split(s));
  }

  /** A comma-separated list of tidy names without the word "and" is read back as it was
      written: `"Canada,Germany"` gives `["Canada", "Germany"]`. */
  lemma TidyListRoundTrip(s: string)
    requires forall q :: 0 <= q < |s| ==> !AndAt(s, q)
    requires forall j :: 0 <= j < |Split(s)| ==> Split(s)[j] != "" && Strip(Split(s)[j]) == Split(s)[j]
    ensures CleanLocations(Str(s)) == List(StrList(Split(s)))
    ensures Join(Split(s), ",") == s
  {
    CleanedKeepsTidy(Split(s));
    SplitJoinRoundTrip(s);
  }

  /** `try_json_loads(s)`: the parsed value, or `None` where `json.loads` raises. */
  function TryJsonLoads(loads: string -> Option<Value>, s: string): (r: Value)
    ensures loads(s).None? ==> r == Null
    ensures loads(s).Some? ==> r == loads(s).value
  {
    match loads(s)
    case Some(v) => v
    case None => Null
  }
}
