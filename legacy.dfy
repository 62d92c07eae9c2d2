/** The older helper module `backend/helpers.js`: title keys, the first `:`-piece
    of a title, and plain look-ups. */
module LegacyHelpers {
  import opened Wrappers
  import opened Strings
  import opened Records
  import opened Viewing
  import Helpers

  // ---------------------------------------------------------------- normalizeTitle

  /** `title.toLowerCase().trim().replace(/[^a-z0-9]/gi, "")`. */
  function NormalizeTitle(title: string): (r: string)
    ensures forall i | 0 <= i < |r| :: IsAsciiLower(r[i]) || IsDigit(r[i])
    ensures forall c | IsAsciiAlnum(c) :: multiset(r)[c] == multiset(Trim(Lower(title)))[c]
  {
    var t := Trim(Lower(title));
    var r := Filter(t, IsAsciiAlnum);
    FilterCounts(t, IsAsciiAlnum);
    forall i | 0 <= i < |r| ensures !IsAsciiUpper(r[i]) {
      FilterFrom(t, IsAsciiAlnum, i);
      var a, b := TrimIsSlice(Lower(title));
      assert r[i] in Lower(title);
    }
    r
  }

  /** The trim is redundant: white space is dropped by the filter anyway, so the key is
      the lower-cased title with every character outside `[a-z0-9]` removed. Titles
      that differ only in letter case therefore get the same key. */
  lemma NormalizeTitleIsFilteredLower(title: string)
    ensures NormalizeTitle(title) == Filter(Lower(title), IsAsciiAlnum)
  {
    SpaceNotAlnum();
    FilterTrim(Lower(title), IsAsciiAlnum);
  }

  lemma SpaceNotAlnum()
    ensures forall c | IsSpace(c) :: !IsAsciiAlnum(c)
  {
  }

  lemma NormalizeTitleIgnoresCase(a: string, b: string)
    requires |a| == |b| && forall i | 0 <= i < |a| :: LowerChar(a[i]) == LowerChar(b[i])
    ensures NormalizeTitle(a) == NormalizeTitle(b)
  {
    assert Lower(a) == Lower(b);
  }

  /** A key is its own key. */
  lemma NormalizeTitleIdempotent(title: string)
    ensures NormalizeTitle(NormalizeTitle(title)) == NormalizeTitle(title)
  {
    var r := NormalizeTitle(title);
    KeyFixed(r);
    assert NormalizeTitle(r) == Filter(Trim(Lower(r)), IsAsciiAlnum);
  }

  /** A string of lower-case letters and digits is unchanged by each step of the key. */
  lemma KeyFixed(r: string)
    requires forall i | 0 <= i < |r| :: IsAsciiLower(r[i]) || IsDigit(r[i])
    ensures Lower(r) == r && Trim(r) == r && Filter(r, IsAsciiAlnum) == r
  {
    assert IsTrimmed(r);
  }

  // ---------------------------------------------------------------- getTitle

  /** `getTitle(rawTitle)`: the trimmed text before the first `:`. The `switch` before
      it computes a value that is never used, so it has no part in the result. */
  function GetTitle(raw: string): (r: string)
    ensures ':' !in r && IsTrimmed(r)
    ensures ':' in raw ==> r == Trim(raw[..Find(raw, ':')])
    ensures ':' !in raw ==> r == Trim(raw)
  {
    Trim(Split(raw, ':')[0])
  }

  lemma GetTitleIdempotent(raw: string)
    ensures GetTitle(GetTitle(raw)) == GetTitle(raw)
  {
  }

  // ---------------------------------------------------------------- getEpisodeRunTime

  /** The older `getEpisodeRunTime`: no optional chaining and no 0 fallback, so an
      absent `episode_run_time`, or an empty one with no `last_episode_to_air`, throws;
      a missing `runtime` is returned as `undefined`. */
  function LegacyEpisodeRunTime(d: Details): (r: Outcome<Option<int>>)
    ensures d.episodeRunTime.None? ==> r.Thrown?
    ensures d.episodeRunTime.Some? && |d.episodeRunTime.value| > 0 ==> r == Ok(Some(d.episodeRunTime.value[0]))
    ensures d.episodeRunTime == Some([]) ==>
      (if d.lastEpisodeToAir.Some? then r == Ok(d.lastEpisodeToAir.value.runtime) else r.Thrown?)
  {
    match d.episodeRunTime
    case None => Thrown
    case Some(times) =>
      if |times| == 0 then
        (match d.lastEpisodeToAir
         case Some(last) => Ok(last.runtime)
         case None => Thrown)
      else Ok(Some(times[0]))
  }

  /** The newer helper agrees with the older one wherever that one returns a number,
      and answers 0 where it throws or returns nothing. */
  lemma EpisodeRunTimeVersions(d: Details)
    ensures Helpers.GetEpisodeRunTime(d) ==
      (match LegacyEpisodeRunTime(d)
       case Ok(v) => v.GetOr(0)
       case Thrown => 0)
  {
  }

  // ---------------------------------------------------------------- look-ups

  /** `normalizedToOriginal[normalizedTitle]`: `undefined` for a missing key. */
  function GetOriginalTitle(normalizedToOriginal: map<string, string>, normalizedTitle: string): (r: Option<string>)
    ensures r.Some? <==> normalizedTitle in normalizedToOriginal
    ensures r.Some? ==> r.value == normalizedToOriginal[normalizedTitle]
  {
    if normalizedTitle in normalizedToOriginal then Some(normalizedToOriginal[normalizedTitle]) else None
  }

  /** `titleToDateFreq[normalizedTitle].titleFrequency`: reading through a missing
      key throws. */
  function GetTitleWatchFrequency(titleToDateFreq: map<string, Entry>, normalizedTitle: string): (r: Outcome<int>)
    ensures r.Ok? <==> normalizedTitle in titleToDateFreq
    ensures r.Ok? && titleToDateFreq[normalizedTitle].Valid() ==>
      r.value == |titleToDateFreq[normalizedTitle].datesWatched|
  {
    if normalizedTitle in titleToDateFreq then Ok(titleToDateFreq[normalizedTitle].titleFrequency) else Thrown
  }
}
