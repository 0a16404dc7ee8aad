/**
 * The four fixed regular expressions of the travel extractor. For each one:
 * - a Shape predicate saying what a match of the pattern is (which spans hold
 *   the keyword, the repeated class, the captured group and the tail);
 * - a hand-written matcher that does at one start position what Python's
 *   backtracking engine does there (greedy repetitions, alternatives tried in
 *   order), proved to return a Shape and to find one whenever one exists;
 * - the leftmost search that `re.search` performs.
 * Every pattern is searched case-insensitively.
 */
module TravelPatterns {
  import opened Wrappers
  import opened Text

  /** A successful match: group 0 spans `t[start..end]`, group 1 spans
      `t[groupStart..groupEnd]`. */
  datatype Match = Match(start: nat, groupStart: nat, groupEnd: nat, end: nat)

  datatype Pattern =
    | WithFor   // "with" or "for", spaces, digits (group 1), spaces, one of WithForNouns
    | PlanTrip  // PlanTripPrefix, digits (group 1), PlanTripSuffix
    | Generic   // digits (group 1), possibly no spaces, one of GenericNouns
    | InCity    // "in", spaces, letters and spaces (group 1), then '.', ',', '?' or the end

  const WithForNouns: seq<string> := ["of my friends", "friends", "people", "travelers"]
  const GenericNouns: seq<string> := ["people", "travelers", "guests"]
  const PlanTripPrefix: string := "plan a trip with "
  const PlanTripSuffix: string := " of my friends"

  predicate Spans(t: string, m: Match) {
    m.start <= m.groupStart <= m.groupEnd <= m.end <= |t|
  }

  // ---------------------------------------------------------------------------
  // Alternation of fixed words

  /** One of `alts` occurs at `i` and ends at `e`. */
  ghost predicate SomeLiteral(t: string, i: nat, e: nat, alts: seq<string>) {
    exists j :: 0 <= j < |alts| && LiteralAt(t, i, alts[j]) && e == i + |alts[j]|
  }

  /** The alternatives start with pairwise different lower-case letters, so at
      most one of them can occur at a given position. */
  predicate DistinctInitials(alts: seq<string>) {
    (forall j :: 0 <= j < |alts| ==> |alts[j]| > 0 && 'a' <= alts[j][0] <= 'z')
    && (forall j, j' :: 0 <= j < j' < |alts| ==> alts[j][0] != alts[j'][0])
  }

  /** Tries the alternatives in order and gives the end of the first one that occurs at `i`. */
  function FirstLiteralEnd(t: string, i: nat, alts: seq<string>): (r: Option<nat>)
    ensures r.Some? ==> SomeLiteral(t, i, r.value, alts)
    ensures r.None? ==> forall j :: 0 <= j < |alts| ==> !LiteralAt(t, i, alts[j])
    decreases |alts|
  {
    if alts == [] then None
    else if LiteralAt(t, i, alts[0]) then
      assert LiteralAt(t, i, alts[0]) && i + |alts[0]| == i + |alts[0]|;
      Some(i + |alts[0]|)
    else
      var r := FirstLiteralEnd(t, i, alts[1..]);
      assert r.Some? ==> SomeLiteral(t, i, r.value, alts) by {
        if r.Some? {
          var j :| 0 <= j < |alts[1..]| && LiteralAt(t, i, alts[1..][j]) && r.value == i + |alts[1..][j]|;
          assert alts[1..][j] == alts[j + 1];
        }
      }
      assert r.None? ==> forall j :: 0 <= j < |alts| ==> !LiteralAt(t, i, alts[j]) by {
        if r.None? {
          forall j | 0 <= j < |alts| ensures !LiteralAt(t, i, alts[j]) {
            if j > 0 { assert alts[j] == alts[1..][j - 1]; }
          }
        }
      }
      r
  }

  /** With distinct initials the alternative that occurs is the one found. */
  lemma {:induction false} FirstLiteralEndComplete(t: string, i: nat, e: nat, alts: seq<string>)
    requires DistinctInitials(alts)
    requires SomeLiteral(t, i, e, alts)
    ensures FirstLiteralEnd(t, i, alts) == Some(e)
    decreases |alts|
  {
    var j :| 0 <= j < |alts| && LiteralAt(t, i, alts[j]) && e == i + |alts[j]|;
    LiteralInitial(t, i, alts[0]);
    LiteralInitial(t, i, alts[j]);
    if !LiteralAt(t, i, alts[0]) {
      var rest := alts[1..];
      assert rest[j - 1] == alts[j];
      assert DistinctInitials(rest) by {
        forall a, b | 0 <= a < b < |rest| ensures rest[a][0] != rest[b][0] {
          assert rest[a] == alts[a + 1] && rest[b] == alts[b + 1];
        }
      }
      FirstLiteralEndComplete(t, i, e, rest);
    }
  }

  /** Where a word occurs, the text's character agrees with the word's first one. */
  lemma LiteralInitial(t: string, i: nat, lit: string)
    ensures LiteralAt(t, i, lit) && |lit| > 0 ==> Lower(t[i]) == Lower(lit[0])
  {
    if LiteralAt(t, i, lit) && |lit| > 0 {
      assert Lower(t[i + 0]) == Lower(lit[0]);
    }
  }

  lemma NounListsHaveDistinctInitials()
    ensures DistinctInitials(WithForNouns) && DistinctInitials(GenericNouns)
  {
    assert WithForNouns[0][0] == 'o' && WithForNouns[1][0] == 'f';
    assert WithForNouns[2][0] == 'p' && WithForNouns[3][0] == 't';
    assert GenericNouns[0][0] == 'p' && GenericNouns[1][0] == 't' && GenericNouns[2][0] == 'g';
  }

  /** A word of a list with distinct initials starts with a letter, so the
      character where it occurs is neither a space nor a digit. */
  lemma LiteralStartsWithLetter(t: string, k: nat, e: nat, alts: seq<string>)
    requires DistinctInitials(alts)
    requires SomeLiteral(t, k, e, alts)
    ensures k < |t| && !IsSpace(t[k]) && !IsDigit(t[k])
  {
    var j :| 0 <= j < |alts| && LiteralAt(t, k, alts[j]) && e == k + |alts[j]|;
    assert Lower(t[k + 0]) == Lower(alts[j][0]);
    LowerLetter(t[k]);
  }

  // ---------------------------------------------------------------------------
  // What a match of each pattern is

  /** `kw` at `i`, then at least one space, up to `j`. */
  predicate KeywordThenSpaces(t: string, i: nat, kw: string, j: nat) {
    LiteralAt(t, i, kw) && i + |kw| < j && AllIn(t, i + |kw|, j, Spaces)
  }

  ghost predicate WithForShape(t: string, m: Match) {
    (KeywordThenSpaces(t, m.start, "with", m.groupStart) || KeywordThenSpaces(t, m.start, "for", m.groupStart))
    && m.groupStart < m.groupEnd && AllIn(t, m.groupStart, m.groupEnd, Digits)
    && exists k :: m.groupEnd < k && AllIn(t, m.groupEnd, k, Spaces) && SomeLiteral(t, k, m.end, WithForNouns)
  }

  ghost predicate PlanTripShape(t: string, m: Match) {
    LiteralAt(t, m.start, PlanTripPrefix) && m.groupStart == m.start + |PlanTripPrefix|
    && m.groupStart < m.groupEnd && AllIn(t, m.groupStart, m.groupEnd, Digits)
    && LiteralAt(t, m.groupEnd, PlanTripSuffix) && m.end == m.groupEnd + |PlanTripSuffix|
  }

  ghost predicate GenericShape(t: string, m: Match) {
    m.groupStart == m.start < m.groupEnd && AllIn(t, m.start, m.groupEnd, Digits)
    && exists k :: m.groupEnd <= k && AllIn(t, m.groupEnd, k, Spaces) && SomeLiteral(t, k, m.end, GenericNouns)
  }

  /** Python's `$` without MULTILINE: the end of the text, or just before a final newline. */
  predicate EndAnchor(t: string, i: nat) {
    i == |t| || (i == |t| - 1 && t[i] == '\n')
  }

  predicate Terminator(c: char) {
    c == '.' || c == ',' || c == '?'
  }

  ghost predicate InCityShape(t: string, m: Match) {
    LiteralAt(t, m.start, "in") && m.start + 2 < m.groupStart < m.groupEnd
    && AllIn(t, m.start + 2, m.groupStart, Spaces)
    && AllIn(t, m.groupStart, m.groupEnd, LettersOrSpaces)
    && ((m.groupEnd < |t| && Terminator(t[m.groupEnd]) && m.end == m.groupEnd + 1)
        || (EndAnchor(t, m.groupEnd) && m.end == m.groupEnd))
  }

  ghost predicate Shape(p: Pattern, t: string, m: Match) {
    match p
    case WithFor => WithForShape(t, m)
    case PlanTrip => PlanTripShape(t, m)
    case Generic => GenericShape(t, m)
    case InCity => InCityShape(t, m)
  }

  // ---------------------------------------------------------------------------
  // Matching at one position

  /** End of the "with" or "for" at `i` (the first alternative that occurs), or `i` if neither does. */
  function KeywordEnd(t: string, i: nat): (e: nat)
    ensures e == i || i + 3 <= e <= |t|
  {
    if LiteralAt(t, i, "with") then i + 4 else if LiteralAt(t, i, "for") then i + 3 else i
  }

  lemma KeywordEndOfShape(t: string, i: nat, j: nat)
    requires KeywordThenSpaces(t, i, "with", j) || KeywordThenSpaces(t, i, "for", j)
    ensures i < KeywordEnd(t, i) < j && AllIn(t, KeywordEnd(t, i), j, Spaces)
  {
    LiteralInitial(t, i, "with");
    LiteralInitial(t, i, "for");
  }

  function MatchWithForAt(t: string, i: nat): (r: Option<Match>)
    requires i <= |t|
    ensures r.Some? ==> r.value.start == i && WithForShape(t, r.value)
  {
    var kwEnd := KeywordEnd(t, i);
    if kwEnd == i then None
    else
      var gs := RunEnd(t, kwEnd, Spaces);
      var ge := RunEnd(t, gs, Digits);
      var k := RunEnd(t, ge, Spaces);
      if gs == kwEnd || ge == gs || k == ge then None
      else match FirstLiteralEnd(t, k, WithForNouns)
        case None => None
        case Some(e) =>
          assert ge < k && AllIn(t, ge, k, Spaces) && SomeLiteral(t, k, e, WithForNouns);
          Some(Match(i, gs, ge, e))
  }

  function MatchPlanTripAt(t: string, i: nat): (r: Option<Match>)
    requires i <= |t|
    ensures r.Some? ==> r.value.start == i && PlanTripShape(t, r.value)
  {
    if !LiteralAt(t, i, PlanTripPrefix) then None
    else
      var gs := i + |PlanTripPrefix|;
      var ge := RunEnd(t, gs, Digits);
      if ge == gs || !LiteralAt(t, ge, PlanTripSuffix) then None
      else Some(Match(i, gs, ge, ge + |PlanTripSuffix|))
  }

  function MatchGenericAt(t: string, i: nat): (r: Option<Match>)
    requires i <= |t|
    ensures r.Some? ==> r.value.start == i && GenericShape(t, r.value)
  {
    var ge := RunEnd(t, i, Digits);
    var k := RunEnd(t, ge, Spaces);
    if ge == i then None
    else match FirstLiteralEnd(t, k, GenericNouns)
      case None => None
      case Some(e) =>
        assert ge <= k && AllIn(t, ge, k, Spaces) && SomeLiteral(t, k, e, GenericNouns);
        Some(Match(i, i, ge, e))
  }

  /** The spaces after "in" are taken greedily; when the letters-and-spaces
      group would then be empty, the spaces give back their last character. A
      stop that fails at the end of the longest letters-and-spaces run fails
      for every shorter run too, so no other split is tried. */
  function MatchInCityAt(t: string, i: nat): (r: Option<Match>)
    requires i <= |t|
    ensures r.Some? ==> r.value.start == i && InCityShape(t, r.value)
  {
    if !LiteralAt(t, i, "in") then None
    else
      var w := RunEnd(t, i + 2, Spaces);
      var e := RunEnd(t, i + 2, LettersOrSpaces);
      if w == i + 2 || e < i + 4 then None
      else
        var gs := if w < e then w else e - 1;
        if e < |t| && Terminator(t[e]) then Some(Match(i, gs, e, e + 1))
        else if EndAnchor(t, e) then Some(Match(i, gs, e, e))
        else None
  }

  /** What the compiled pattern does when tried at position `i` alone. */
  function MatchAt(p: Pattern, t: string, i: nat): (r: Option<Match>)
    requires i <= |t|
    ensures r.Some? ==> r.value.start == i && Spans(t, r.value) && Shape(p, t, r.value)
    ensures r.Some? && p != InCity ==> AllIn(t, r.value.groupStart, r.value.groupEnd, Digits)
  {
    match p
    case WithFor => MatchWithForAt(t, i)
    case PlanTrip => MatchPlanTripAt(t, i)
    case Generic => MatchGenericAt(t, i)
    case InCity => MatchInCityAt(t, i)
  }

  /** `re.search`: the match at the leftmost position from `from` on where the pattern matches. */
  function Search(p: Pattern, t: string, from: nat): (r: Option<Match>)
    requires from <= |t|
    ensures r.Some? ==> from <= r.value.start <= |t| && MatchAt(p, t, r.value.start) == r
    ensures forall i :: from <= i <= |t| && (r.None? || i < r.value.start) ==> MatchAt(p, t, i).None?
    decreases |t| - from
  {
    match MatchAt(p, t, from)
    case Some(m) => Some(m)
    case None => if from == |t| then None else Search(p, t, from + 1)
  }

  /** The search finds nothing when the pattern matches at no position. */
  lemma {:induction false} SearchNone(p: Pattern, t: string, from: nat)
    requires from <= |t|
    requires forall i :: from <= i <= |t| ==> MatchAt(p, t, i).None?
    ensures Search(p, t, from).None?
    decreases |t| - from
  {
    if from < |t| {
      SearchNone(p, t, from + 1);
    }
  }

  /** The search returns the first position from `from` on where the pattern matches. */
  lemma SearchFrom(p: Pattern, t: string, from: nat, i: nat)
    requires from <= i <= |t|
    requires forall j :: from <= j < i ==> MatchAt(p, t, j).None?
    requires MatchAt(p, t, i).Some?
    ensures Search(p, t, from) == MatchAt(p, t, i)
  {
    var r := Search(p, t, from);
    assert r.Some? && r.value.start <= i by {
      assert MatchAt(p, t, i).Some?;
    }
    var k := r.value.start;
    assert MatchAt(p, t, k) == r;
    assert k == i by {
      assert MatchAt(p, t, k).Some?;
    }
  }

  // ---------------------------------------------------------------------------
  // The matchers find every match

  lemma SpacesAreLettersOrSpaces(t: string, i: nat, j: nat)
    requires AllIn(t, i, j, Spaces)
    ensures AllIn(t, i, j, LettersOrSpaces)
  {
  }

  lemma WithForComplete(t: string, m: Match)
    requires WithForShape(t, m)
    ensures MatchWithForAt(t, m.start) == Some(m)
  {
    NounListsHaveDistinctInitials();
    var i, gs, ge := m.start, m.groupStart, m.groupEnd;
    var k :| ge < k && AllIn(t, ge, k, Spaces) && SomeLiteral(t, k, m.end, WithForNouns);
    KeywordEndOfShape(t, i, gs);
    var kwEnd := KeywordEnd(t, i);
    RunEndUnique(t, kwEnd, gs, Spaces);
    assert !InClass(t[ge], Digits);
    RunEndUnique(t, gs, ge, Digits);
    LiteralStartsWithLetter(t, k, m.end, WithForNouns);
    RunEndUnique(t, ge, k, Spaces);
    FirstLiteralEndComplete(t, k, m.end, WithForNouns);
  }

  lemma PlanTripComplete(t: string, m: Match)
    requires PlanTripShape(t, m)
    ensures MatchPlanTripAt(t, m.start) == Some(m)
  {
    assert Lower(t[m.groupEnd + 0]) == Lower(PlanTripSuffix[0]) == ' ';
    RunEndUnique(t, m.groupStart, m.groupEnd, Digits);
  }

  lemma GenericComplete(t: string, m: Match)
    requires GenericShape(t, m)
    ensures MatchGenericAt(t, m.start) == Some(m)
  {
    NounListsHaveDistinctInitials();
    var k :| m.groupEnd <= k && AllIn(t, m.groupEnd, k, Spaces) && SomeLiteral(t, k, m.end, GenericNouns);
    LiteralStartsWithLetter(t, k, m.end, GenericNouns);
    RunEndUnique(t, m.start, m.groupEnd, Digits);
    RunEndUnique(t, m.groupEnd, k, Spaces);
    FirstLiteralEndComplete(t, k, m.end, GenericNouns);
  }

  /** Whenever "in" at `m.start` begins a match, the matcher finds one, and it
      is the greedy one: its group starts and ends no earlier than `m`'s. */
  lemma InCityComplete(t: string, m: Match)
    requires InCityShape(t, m)
    ensures MatchInCityAt(t, m.start).Some?
    ensures m.groupStart <= MatchInCityAt(t, m.start).value.groupStart
    ensures m.groupEnd <= MatchInCityAt(t, m.start).value.groupEnd
  {
    var i := m.start;
    var w := RunEnd(t, i + 2, Spaces);
    var e := RunEnd(t, i + 2, LettersOrSpaces);
    RunEndMaximal(t, i + 2, m.groupStart, Spaces);
    SpacesAreLettersOrSpaces(t, i + 2, m.groupStart);
    assert AllIn(t, i + 2, m.groupEnd, LettersOrSpaces);
    RunEndMaximal(t, i + 2, m.groupEnd, LettersOrSpaces);
    if m.groupEnd < e {
      assert InClass(t[m.groupEnd], LettersOrSpaces);
      assert EndAnchor(t, e);
    }
  }

  lemma MatchComplete(p: Pattern, t: string, m: Match)
    requires Shape(p, t, m)
    ensures m.start <= |t|
    ensures MatchAt(p, t, m.start).Some?
    ensures p != InCity ==> MatchAt(p, t, m.start) == Some(m)
    ensures p == InCity ==> (m.groupStart <= MatchAt(p, t, m.start).value.groupStart
                             && m.groupEnd <= MatchAt(p, t, m.start).value.groupEnd)
  {
    match p
    case WithFor => WithForComplete(t, m);
    case PlanTrip => PlanTripComplete(t, m);
    case Generic => GenericComplete(t, m);
    case InCity => InCityComplete(t, m);
  }

  /** `Search` finds a match exactly when the text holds one, and none of the
      text's matches starts before the one it finds. */
  lemma SearchIsLeftmost(p: Pattern, t: string)
    ensures Search(p, t, 0).None? <==> forall m :: !Shape(p, t, m)
    ensures Search(p, t, 0).Some? ==> Shape(p, t, Search(p, t, 0).value)
    ensures Search(p, t, 0).Some? ==>
              forall m :: Shape(p, t, m) ==> Search(p, t, 0).value.start <= m.start
  {
    forall m | Shape(p, t, m)
      ensures Search(p, t, 0).Some? && Search(p, t, 0).value.start <= m.start
    {
      MatchComplete(p, t, m);
    }
  }
}
