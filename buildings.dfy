/** Matching a user's query against one building: an exact abbreviation, or
    any occurrence of the query inside the building's full name. */
module Buildings {
  import opened Wrappers
  import opened Osm

  /** `q` occurs in `s` starting at position `i`. */
  predicate OccursAt(s: string, q: string, i: int) {
    0 <= i && i + |q| <= |s| && s[i..i + |q|] == q
  }

  /** The string search the match relies on: the first position at or after
      `from` where `q` occurs in `s`, or `None` (the "npos" answer). */
  function FindFrom(s: string, q: string, from: nat): (r: Option<nat>)
    ensures r.Some? ==> from <= r.value && OccursAt(s, q, r.value)
    ensures r.Some? ==> forall j :: from <= j < r.value ==> !OccursAt(s, q, j)
    ensures r.None? ==> forall j :: from <= j ==> !OccursAt(s, q, j)
    decreases |s| - from
  {
    if from + |q| > |s| then None
    else if s[from..from + |q|] == q then Some(from)
    else FindFrom(s, q, from + 1)
  }

  /** The result of a match and the caller's two out-values afterwards. */
  datatype MatchResult = MatchResult(found: bool, fullName: string, coords: Coordinates)

  /** Checks the abbreviation first, then the full name. On a match the
      building's name and position are written to the out-values; otherwise
      the caller's values come back unchanged. */
  function CheckForMatch(b: BuildingInfo, query: string, fullName: string, coords: Coordinates): (r: MatchResult)
    ensures r.found <==> b.abbrev == query || exists j :: OccursAt(b.fullname, query, j)
    ensures r.found ==> r.fullName == b.fullname && r.coords == b.coords
    ensures !r.found ==> r.fullName == fullName && r.coords == coords
  {
    var matchFound :=
      if b.abbrev == query then true
      else FindFrom(b.fullname, query, 0) != None;
    if matchFound then MatchResult(true, b.fullname, b.coords)
    else MatchResult(false, fullName, coords)
  }

  /** The empty query is found in every full name. */
  lemma EmptyQueryMatches(b: BuildingInfo, fullName: string, coords: Coordinates)
    ensures CheckForMatch(b, "", fullName, coords).found
  {
    assert OccursAt(b.fullname, "", 0);
  }
}
