/** The helpers of the pipeline: title clean-up, run-time and provider look-ups,
    and the merge of one viewing-index entry into another index. */
module Helpers {
  import opened Wrappers
  import opened Strings
  import opened OrderedDict
  import opened Records
  import opened Viewing

  // ---------------------------------------------------------------- updateTitleToDateFreq

  /** The first statement of `updateTitleToDateFreq`: `newTitle` gets an empty entry
      unless it has one. */
  function WithSlot(temp: Dict<string, Entry>, newTitle: string): (r: Dict<string, Entry>)
    requires IndexValid(temp)
    ensures IndexValid(r) && newTitle in r.vals
    ensures newTitle in temp.vals ==> r == temp
    ensures newTitle !in temp.vals ==> r.keys == temp.keys + [newTitle] && r.vals[newTitle] == Entry([], 0)
    ensures forall k | k in temp.vals :: k in r.vals && r.vals[k] == temp.vals[k]
  {
    if newTitle in temp.vals then temp else temp.Put(newTitle, Entry([], 0))
  }

  /** The second statement: when `src` has `currTitle`, its dates go after those of
      `temp[newTitle]` and its frequency is added. */
  function Absorb(src: Dict<string, Entry>, currTitle: string, temp: Dict<string, Entry>, newTitle: string): (r: Dict<string, Entry>)
    requires IndexValid(src) && IndexValid(temp) && newTitle in temp.vals
    ensures IndexValid(r)
    ensures r.keys == temp.keys
    ensures currTitle in src.vals ==>
              r.vals[newTitle] == Entry(temp.vals[newTitle].datesWatched + src.vals[currTitle].datesWatched,
                                        temp.vals[newTitle].titleFrequency + src.vals[currTitle].titleFrequency)
    ensures currTitle !in src.vals ==> r == temp
    ensures forall k | k in temp.vals && k != newTitle :: r.vals[k] == temp.vals[k]
  {
    if currTitle in src.vals then
      var e := temp.vals[newTitle];
      var c := src.vals[currTitle];
      temp.Put(newTitle, Entry(e.datesWatched + c.datesWatched, e.titleFrequency + c.titleFrequency))
    else temp
  }

  /** `updateTitleToDateFreq(currTitle, newTitle, currDict, tempDict)`: updates
      `tempDict` in place and returns it. When both arguments are the same object the
      source entry is read after the empty entry was created. */
  method UpdateTitleToDateFreq(currTitle: string, newTitle: string, currDict: ViewingIndex, tempDict: ViewingIndex)
    returns (r: ViewingIndex)
    requires currDict.Valid() && tempDict.Valid()
    modifies tempDict
    ensures r == tempDict && tempDict.Valid()
    ensures var slotted := WithSlot(old(tempDict.entries), newTitle);
      tempDict.entries == Absorb(if currDict == tempDict then slotted else currDict.entries, currTitle, slotted, newTitle)
  {
    if newTitle !in tempDict.entries.vals {
      tempDict.entries := tempDict.entries.Put(newTitle, Entry([], 0));
    }
    assert tempDict.entries == WithSlot(old(tempDict.entries), newTitle);
    if currTitle in currDict.entries.vals {
      var e := tempDict.entries.vals[newTitle];
      var c := currDict.entries.vals[currTitle];
      tempDict.entries := tempDict.entries.Put(newTitle, Entry(e.datesWatched + c.datesWatched, e.titleFrequency + c.titleFrequency));
    }
    r := tempDict;
  }

  /** The merge moves exactly the frequency of `src[currTitle]` into `temp`. */
  lemma AbsorbTotal(src: Dict<string, Entry>, currTitle: string, temp: Dict<string, Entry>, newTitle: string)
    requires IndexValid(src) && IndexValid(temp)
    ensures TotalFrequency(Absorb(src, currTitle, WithSlot(temp, newTitle), newTitle))
         == TotalFrequency(temp) + (if currTitle in src.vals then src.vals[currTitle].titleFrequency else 0)
  {
    var slotted := WithSlot(temp, newTitle);
    if newTitle !in temp.vals {
      PutSum(temp, newTitle, Entry([], 0), Frequency);
    }
    if currTitle in src.vals {
      var e := slotted.vals[newTitle];
      var c := src.vals[currTitle];
      PutSum(slotted, newTitle, Entry(e.datesWatched + c.datesWatched, e.titleFrequency + c.titleFrequency), Frequency);
    }
  }

  // ---------------------------------------------------------------- getTitleWatchFrequency

  /** `titleToDateFreq[title].titleFrequency`; a missing title would throw. */
  function GetTitleWatchFrequency(index: ViewingIndex, title: string): (r: int)
    reads index
    requires title in index.entries.vals
    ensures index.Valid() ==> r == |index.entries.vals[title].datesWatched|
  {
    index.entries.vals[title].titleFrequency
  }

  // ---------------------------------------------------------------- getEpisodeRunTime

  /** `getEpisodeRunTime(details)`: the first listed episode run time, else the last
      aired episode's run time, else 0. */
  function GetEpisodeRunTime(d: Details): (r: int)
    ensures d.episodeRunTime.Some? && |d.episodeRunTime.value| > 0 ==> r == d.episodeRunTime.value[0]
    ensures d.episodeRunTime == Some([]) ==>
      r == (if d.lastEpisodeToAir.Some? then d.lastEpisodeToAir.value.runtime.GetOr(0) else 0)
    ensures d.episodeRunTime.None? ==> r == 0
  {
    match d.episodeRunTime
    case Some(times) =>
      if |times| == 0 then
        (match d.lastEpisodeToAir
         case Some(last) => IntOrNull(last.runtime).GetOr(0)
         case None => 0)
      else times[0]
    case None => 0
  }

  // ---------------------------------------------------------------- removeNonAlphaNumeric

  /** The characters `/[^a-z0-9\s]/gi` does not match. */
  predicate KeptByStrip(c: char) {
    IsAsciiAlnum(c) || IsSpace(c)
  }

  /** `title.replaceAll(/[^a-z0-9\s]/gi, "")`. */
  function RemoveNonAlphaNumeric(title: string): (r: string)
    ensures forall i | 0 <= i < |r| :: IsAsciiAlnum(r[i]) || IsSpace(r[i])
    ensures forall c | KeptByStrip(c) :: multiset(r)[c] == multiset(title)[c]
    ensures (forall i | 0 <= i < |title| :: KeptByStrip(title[i])) ==> r == title
  {
    FilterCounts(title, KeptByStrip);
    Filter(title, KeptByStrip)
  }

  lemma RemoveNonAlphaNumericIdempotent(title: string)
    ensures RemoveNonAlphaNumeric(RemoveNonAlphaNumeric(title)) == RemoveNonAlphaNumeric(title)
  {
    FilterIdempotent(title, KeptByStrip);
  }

  // ---------------------------------------------------------------- isValidString

  /** `isValidString(str)`; `None` stands for a value that is not a string. */
  function IsValidString(str: Option<string>): (r: bool)
    ensures r <==> str.Some? && exists i | 0 <= i < |str.value| :: !IsSpace(str.value[i])
  {
    match str
    case None => false
    case Some(s) => TrimEmpty(s); |Trim(s)| > 0
  }

  // ---------------------------------------------------------------- removeEpisodicKeywords

  const Separators: seq<string> := ["Season", "Episode", "Part", "Volume", "Limited Series", "Chapter"]

  /** `title.toLowerCase().indexOf(sep.toLowerCase())`. */
  function KeywordIndex(title: string, sep: string): (r: int)
    ensures -1 <= r
    ensures r >= 0 ==> r + |sep| <= |title| && HasAt(Lower(title), Lower(sep), r)
    ensures forall i | 0 <= i && (r == -1 || i < r) :: !HasAt(Lower(title), Lower(sep), i)
  {
    IndexOf(Lower(title), Lower(sep))
  }

  /** `title.substring(0, idx).split(":").slice(0, -1).join(":").trim()`. */
  function CutBefore(title: string, idx: nat): string
    requires idx <= |title|
  {
    Trim(Join(DropLast(Split(title[..idx], ':')), ":"))
  }

  /** One pass of the loop: cut the title at the first case-insensitive `sep`. */
  function CutAtSeparator(title: string, sep: string): string {
    var idx := KeywordIndex(title, sep);
    if idx == -1 then title else CutBefore(title, idx)
  }

  /** The loop over `seps`, in order. */
  function CutAll(title: string, seps: seq<string>): string
    decreases |seps|
  {
    if |seps| == 0 then title else CutAll(CutAtSeparator(title, seps[0]), seps[1..])
  }

  /** What `removeEpisodicKeywords(title)` returns. */
  function EpisodicStripped(title: string): string {
    Trim(CutAll(title, Separators))
  }

  /** The cut keeps a contiguous piece of the text before the keyword. */
  lemma CutIsSlice(title: string, sep: string) returns (a: nat, b: nat)
    ensures a <= b <= |title| && CutAtSeparator(title, sep) == title[a..b]
    ensures KeywordIndex(title, sep) >= 0 ==> b <= KeywordIndex(title, sep)
  {
    var idx := KeywordIndex(title, sep);
    if idx == -1 {
      a, b := 0, |title|;
    } else {
      a, b := CutBeforeIsSlice(title, idx);
    }
  }

  lemma CutBeforeIsSlice(title: string, idx: nat) returns (a: nat, b: nat)
    requires idx <= |title|
    ensures a <= b <= idx && CutBefore(title, idx) == title[a..b]
  {
    var u := title[..idx];
    var m := KeptPrefix(u);
    var j := Join(DropLast(Split(u, ':')), ":");
    SliceOfPrefix(title, idx, 0, m);
    a, b := TrimIsSlice(j);
    SliceOfPrefix(title, m, a, b);
  }

  lemma SliceOfPrefix(s: string, m: nat, a: nat, b: nat)
    requires a <= b <= m <= |s|
    ensures s[..m][a..b] == s[a..b]
  {
  }

  /** Dropping the last `:`-piece keeps a prefix of `u`. */
  lemma KeptPrefix(u: string) returns (m: nat)
    ensures m <= |u| && Join(DropLast(Split(u, ':')), ":") == u[..m]
  {
    JoinDropLastSplit(u, ':');
    m := if ':' in u then LastFind(u, ':') else 0;
  }

  /** A keyword absent from the title is absent from every slice of it. */
  lemma NoKeywordInSlice(title: string, sep: string, a: nat, b: nat)
    requires a <= b <= |title| && KeywordIndex(title, sep) == -1
    ensures KeywordIndex(title[a..b], sep) == -1
  {
    LowerSlice(title, a, b);
    NoMatchInSlice(Lower(title), Lower(sep), a, b);
  }

  /** After its pass, a non-empty keyword occurs nowhere in the title. */
  lemma CutRemoves(title: string, sep: string)
    requires |sep| > 0
    ensures KeywordIndex(CutAtSeparator(title, sep), sep) == -1
  {
    var idx := KeywordIndex(title, sep);
    if idx >= 0 {
      var a, b := CutIsSlice(title, sep);
      LowerSlice(title, a, b);
      NoMatchBetween(Lower(title), Lower(sep), a, b);
    }
  }

  /** A found keyword cuts the title back to before the last `:` that precedes it
      (trimmed); with no `:` before it the title becomes "". */
  lemma CutBackToColon(title: string, sep: string)
    requires KeywordIndex(title, sep) >= 0
    ensures var u := title[..KeywordIndex(title, sep)];
      CutAtSeparator(title, sep) == if ':' in u then Trim(title[..LastFind(u, ':')]) else ""
  {
    var u := title[..KeywordIndex(title, sep)];
    JoinDropLastSplit(u, ':');
    if ':' in u {
      assert u[..LastFind(u, ':')] == title[..LastFind(u, ':')];
    } else {
      assert IsTrimmed("");
    }
  }

  /** `removeEpisodicKeywords(title)`: the loop over the separators, then a trim. */
  method RemoveEpisodicKeywords(title0: string) returns (r: string)
    ensures r == EpisodicStripped(title0)
    ensures IsTrimmed(r)
    ensures forall s | s in Separators :: KeywordIndex(r, s) == -1
  {
    SeparatorsNonEmpty();
    var title := CutEach(title0, Separators);
    r := Trim(title);
    TrimKeepsRemoved(title, Separators);
  }

  /** The `for (const sep of separators)` loop, for any list of non-empty keywords. */
  method CutEach(title0: string, seps: seq<string>) returns (title: string)
    requires forall s | s in seps :: |s| > 0
    ensures title == CutAll(title0, seps)
    ensures forall s | s in seps :: KeywordIndex(title, s) == -1
  {
    title := title0;
    for n := 0 to |seps|
      invariant CutAll(title, seps[n..]) == CutAll(title0, seps)
      invariant forall j | 0 <= j < n :: KeywordIndex(title, seps[j]) == -1
    {
      var sep := seps[n];
      ghost var before := title;
      var idx := KeywordIndex(title, sep);
      if idx != -1 {
        title := CutBefore(title, idx);
      }
      assert title == CutAtSeparator(before, sep);
      assert seps[n..][1..] == seps[n + 1..];
      CutKeepsRemoved(before, seps, n);
    }
  }

  /** One cut removes its own keyword and brings back none of the earlier ones. */
  lemma CutKeepsRemoved(title: string, seps: seq<string>, n: nat)
    requires n < |seps| && |seps[n]| > 0
    requires forall j | 0 <= j < n :: KeywordIndex(title, seps[j]) == -1
    ensures forall j | 0 <= j <= n :: KeywordIndex(CutAtSeparator(title, seps[n]), seps[j]) == -1
  {
    var a, b := CutIsSlice(title, seps[n]);
    forall j | 0 <= j < n ensures KeywordIndex(CutAtSeparator(title, seps[n]), seps[j]) == -1 {
      NoKeywordInSlice(title, seps[j], a, b);
    }
    CutRemoves(title, seps[n]);
  }

  /** The final trim brings back no keyword either. */
  lemma TrimKeepsRemoved(title: string, seps: seq<string>)
    requires forall s | s in seps :: KeywordIndex(title, s) == -1
    ensures forall s | s in seps :: KeywordIndex(Trim(title), s) == -1
  {
    var a, b := TrimIsSlice(title);
    forall s | s in seps ensures KeywordIndex(Trim(title), s) == -1 {
      NoKeywordInSlice(title, s, a, b);
    }
  }

  /** A title with no keyword left passes through every cut unchanged. */
  lemma {:induction false} CutAllNoKeyword(title: string, seps: seq<string>)
    requires forall s | s in seps :: KeywordIndex(title, s) == -1
    ensures CutAll(title, seps) == title
    decreases |seps|
  {
    if |seps| > 0 {
      assert forall s | s in seps[1..] :: s in seps;
      CutAllNoKeyword(title, seps[1..]);
    }
  }

  lemma SeparatorsNonEmpty()
    ensures forall x | x in Separators :: |x| > 0
  {
  }

  /** Stripping a second time changes nothing. */
  lemma EpisodicStrippedIdempotent(title: string)
    ensures EpisodicStripped(EpisodicStripped(title)) == EpisodicStripped(title)
  {
    SeparatorsNonEmpty();
    TrimmedCutsIdempotent(title, Separators);
  }

  lemma TrimmedCutsIdempotent(title: string, seps: seq<string>)
    requires forall x | x in seps :: |x| > 0
    ensures Trim(CutAll(Trim(CutAll(title, seps)), seps)) == Trim(CutAll(title, seps))
  {
    var t := CutAll(title, seps);
    var r := Trim(t);
    var a, b := TrimIsSlice(t);
    forall s | s in seps ensures KeywordIndex(r, s) == -1 {
      CutAllRemoves(title, seps, s);
      NoKeywordInSlice(t, s, a, b);
    }
    CutAllNoKeyword(r, seps);
  }

  /** Each keyword passed to `CutAll` is gone from its result. */
  lemma {:induction false} CutAllRemoves(title: string, seps: seq<string>, s: string)
    requires s in seps && forall x | x in seps :: |x| > 0
    ensures KeywordIndex(CutAll(title, seps), s) == -1
    decreases |seps|
  {
    var t := CutAtSeparator(title, seps[0]);
    if s == seps[0] {
      CutRemoves(title, s);
      CutAllKeepsAbsent(t, seps[1..], s);
    } else {
      assert s in seps[1..];
      assert forall x | x in seps[1..] :: x in seps;
      CutAllRemoves(t, seps[1..], s);
    }
  }

  /** Later cuts only take slices, so they never bring a keyword back. */
  lemma {:induction false} CutAllKeepsAbsent(title: string, seps: seq<string>, s: string)
    requires KeywordIndex(title, s) == -1
    ensures KeywordIndex(CutAll(title, seps), s) == -1
    decreases |seps|
  {
    if |seps| > 0 {
      var a, b := CutIsSlice(title, seps[0]);
      NoKeywordInSlice(title, s, a, b);
      CutAllKeepsAbsent(CutAtSeparator(title, seps[0]), seps[1..], s);
    }
  }

  // ---------------------------------------------------------------- getBaseTitle

  /** The cases of the `switch (true)`, in order. */
  const BaseTitleKeys: seq<string> := ["Season", "Limited Series", "Episode", "Volume", "Part", "Chapter", ":"]

  /** The first case whose case-sensitive `includes` holds. */
  function ChosenKey(raw: string, keys: seq<string>): (r: Option<string>)
    ensures r.Some? ==> r.value in keys && Includes(raw, r.value)
    ensures r.None? ==> forall k | k in keys :: !Includes(raw, k)
    decreases |keys|
  {
    if |keys| == 0 then None
    else if Includes(raw, keys[0]) then Some(keys[0])
    else
      var r := ChosenKey(raw, keys[1..]);
      assert forall k | k in keys :: k == keys[0] || k in keys[1..];
      r
  }

  /** The first index at or after `p` that is not white space. */
  function SkipSpaces(s: string, p: nat): (r: nat)
    requires p <= |s|
    ensures p <= r <= |s| && (r == |s| || !IsSpace(s[r]))
    ensures forall i | p <= i < r :: IsSpace(s[i])
    decreases |s| - p
  {
    if p < |s| && IsSpace(s[p]) then SkipSpaces(s, p + 1) else p
  }

  /** `kw` matches at `i` under the `i` flag (ASCII letters fold; no other
      character folds onto one). */
  predicate MatchesAt(s: string, kw: string, i: nat) {
    i + |kw| <= |s| && Lower(s[i..i + |kw|]) == Lower(kw)
  }

  /** The zero-width pattern `(?=\s*kw)` succeeds at `q`. */
  predicate LooksAhead(s: string, kw: string, q: nat)
    requires q <= |s|
  {
    MatchesAt(s, kw, SkipSpaces(s, q))
  }

  /** The end of the first piece of `s.split(/(?=\s*kw)/i)`: the least `q >= from`,
      below `|s|`, where the lookahead succeeds, or `|s|`. */
  function SplitPoint(s: string, kw: string, from: nat): (q: nat)
    requires from <= |s|
    ensures from <= q <= |s|
    ensures q < |s| ==> LooksAhead(s, kw, q)
    ensures forall i | from <= i < q :: !LooksAhead(s, kw, i)
    decreases |s| - from
  {
    if from >= |s| then |s|
    else if LooksAhead(s, kw, from) then from
    else SplitPoint(s, kw, from + 1)
  }

  /** `s.split(/(?=\s*kw)/i)[0]`: a zero-width match at 0 never splits, so the search
      starts at 1. */
  function LeadingPiece(s: string, kw: string): (r: string)
    ensures |r| <= |s| && r == s[..|r|]
  {
    if |s| == 0 then s else s[..SplitPoint(s, kw, 1)]
  }

  /** `parsedTitle[0]` after the `switch`. */
  function BasePiece(raw: string): (r: string)
    ensures |r| <= |raw| && r == raw[..|r|]
  {
    match ChosenKey(raw, BaseTitleKeys)
    case Some(kw) => LeadingPiece(raw, kw)
    case None => raw
  }

  /** `getBaseTitle(rawTitle)`. */
  function GetBaseTitle(raw: string): (r: string)
    ensures ':' !in r
    ensures (forall k | k in BaseTitleKeys :: !Includes(raw, k)) ==> r == raw
  {
    var piece := BasePiece(raw);
    assert ChosenKey(raw, BaseTitleKeys).None? ==> ':' !in raw by {
      FindIsIndexOf(raw, ':');
      assert ":" in BaseTitleKeys;
    }
    ReplaceAll(piece, ':', "")
  }

  /** When the chosen keyword first occurs (in any letter case) at `p >= 1`, the
      base title is the text before it, less the white space right in front of it
      (the cut never goes below index 1), with the colons removed. */
  lemma BaseTitleBeforeKeyword(raw: string, p: nat)
    requires ChosenKey(raw, BaseTitleKeys).Some?
    requires 1 <= p && HasAt(raw, ChosenKey(raw, BaseTitleKeys).value, p)
    requires forall i | 1 <= i < p :: !MatchesAt(raw, ChosenKey(raw, BaseTitleKeys).value, i)
    ensures var q := |BasePiece(raw)|;
      1 <= q <= p && (forall i | q <= i < p :: IsSpace(raw[i])) && (q > 1 ==> !IsSpace(raw[q - 1])) &&
      GetBaseTitle(raw) == ReplaceAll(raw[..q], ':', "")
  {
    var kw := ChosenKey(raw, BaseTitleKeys).value;
    KeyStartsUnspaced(kw);
    assert raw[p] == kw[0];
    assert SkipSpaces(raw, p) == p;
    assert raw[p..p + |kw|] == kw;
    assert LooksAhead(raw, kw, p);
    var q := SplitPoint(raw, kw, 1);
    assert BasePiece(raw) == raw[..q];
    var r := SkipSpaces(raw, q);
    assert MatchesAt(raw, kw, r);
    SkipStopsAt(raw, q, p);
    assert r == p;
    if q > 1 {
      SplitAfterText(raw, kw, q);
    }
  }

  /** Skipping white space never passes a character that is not white space. */
  lemma SkipStopsAt(s: string, from: nat, p: nat)
    requires from <= p < |s| && !IsSpace(s[p])
    ensures SkipSpaces(s, from) <= p
  {
  }

  /** A lookahead that succeeds at `q` but not at `q - 1` has text right before `q`. */
  lemma SplitAfterText(s: string, kw: string, q: nat)
    requires 1 <= q < |s| && LooksAhead(s, kw, q) && !LooksAhead(s, kw, q - 1)
    ensures !IsSpace(s[q - 1])
  {
  }

  /** Every keyword starts with a character other than white space. */
  lemma KeyStartsUnspaced(kw: string)
    requires kw in BaseTitleKeys
    ensures |kw| > 0 && !IsSpace(kw[0])
  {
  }

  // ---------------------------------------------------------------- isAvailableOnNetflix

  const PriorityCountries: seq<string> := ["US", "GB", "CA", "AU", "IN"]

  /** What `for (const country in PRIORITY_COUNTRIES)` visits: the array's indices, as
      property names. */
  const PriorityIndexKeys: seq<string> := ["0", "1", "2", "3", "4"]

  /** `data?.[country]?.flatrate || []`. */
  function Flatrate(data: Option<Dict<string, Region>>, country: string): (r: seq<Provider>)
    ensures data.None? ==> r == []
    ensures data.Some? && country !in data.value.vals ==> r == []
    ensures data.Some? && country in data.value.vals ==> r == data.value.vals[country].flatrate.GetOr([])
  {
    match data
    case None => []
    case Some(d) => if country in d.vals then d.vals[country].flatrate.GetOr([]) else []
  }

  /** `flatrate.some((p) => p.provider_name === "Netflix")`. */
  predicate HasNetflix(ps: seq<Provider>) {
    exists i | 0 <= i < |ps| :: ps[i].providerName == "Netflix"
  }

  /** Some country of `countries` that is not in `skip` lists Netflix: a loop over
      `countries` that skips the ones in `skip` and stops at the first hit. */
  predicate NetflixAmong(data: Option<Dict<string, Region>>, countries: seq<string>, skip: seq<string>)
    decreases |countries|
  {
    |countries| > 0 &&
    ((countries[0] !in skip && HasNetflix(Flatrate(data, countries[0]))) || NetflixAmong(data, countries[1..], skip))
  }

  lemma {:induction false} NetflixAmongIff(data: Option<Dict<string, Region>>, countries: seq<string>, skip: seq<string>)
    ensures NetflixAmong(data, countries, skip) <==>
      exists i | 0 <= i < |countries| :: countries[i] !in skip && HasNetflix(Flatrate(data, countries[i]))
    decreases |countries|
  {
    if |countries| > 0 {
      NetflixAmongIff(data, countries[1..], skip);
      if exists i | 0 <= i < |countries| :: countries[i] !in skip && HasNetflix(Flatrate(data, countries[i])) {
        var i :| 0 <= i < |countries| && countries[i] !in skip && HasNetflix(Flatrate(data, countries[i]));
        if i > 0 {
          assert countries[1..][i - 1] == countries[i];
        }
      }
      if NetflixAmong(data, countries[1..], skip) {
        var i :| 0 <= i < |countries| - 1 && countries[1..][i] !in skip && HasNetflix(Flatrate(data, countries[1..][i]));
        assert countries[i + 1] == countries[1..][i];
      }
    }
  }

  /** The answer of `isAvailableOnNetflix`, read off the response: some index key
      `"0"`..`"4"` lists Netflix, or some country outside the priority list does. */
  predicate AvailableOnNetflix(wp: Option<WatchProviders>) {
    wp.Some? &&
    (NetflixAmong(wp.value.results, PriorityIndexKeys, []) ||
     (wp.value.results.Some? && NetflixAmong(wp.value.results, wp.value.results.value.keys, PriorityCountries)))
  }

  /** `isAvailableOnNetflix(watchProvidersData)`; `None` is a falsy argument. */
  method IsAvailableOnNetflix(wp: Option<WatchProviders>) returns (r: bool)
    ensures r == AvailableOnNetflix(wp)
  {
    if wp.None? {
      return false;
    }
    var data := wp.value.results;
    for n := 0 to |PriorityIndexKeys|
      invariant NetflixAmong(data, PriorityIndexKeys, []) == NetflixAmong(data, PriorityIndexKeys[n..], [])
    {
      assert PriorityIndexKeys[n..][1..] == PriorityIndexKeys[n + 1..];
      if HasNetflix(Flatrate(data, PriorityIndexKeys[n])) {
        return true;
      }
    }
    if data.None? {
      return false;
    }
    var keys := data.value.keys;
    for n := 0 to |keys|
      invariant NetflixAmong(data, keys, PriorityCountries) == NetflixAmong(data, keys[n..], PriorityCountries)
    {
      assert keys[n..][1..] == keys[n + 1..];
      var country := keys[n];
      if country in PriorityCountries {
        continue;
      }
      if HasNetflix(Flatrate(data, country)) {
        return true;
      }
    }
    return false;
  }

  /** A response whose countries are all priority countries (and so not index keys)
      never counts as available on Netflix, whatever those countries list. */
  lemma PriorityOnlyNeverNetflix(wp: WatchProviders)
    requires wp.results.Some? && wp.results.value.Valid()
    requires forall i | 0 <= i < |wp.results.value.keys| :: wp.results.value.keys[i] in PriorityCountries
    ensures !AvailableOnNetflix(Some(wp))
  {
    var d := wp.results.value;
    forall i | 0 <= i < |PriorityIndexKeys| ensures PriorityIndexKeys[i] !in d.vals {
      assert PriorityIndexKeys[i] !in PriorityCountries;
    }
    NetflixAmongIff(wp.results, PriorityIndexKeys, []);
    NetflixAmongIff(wp.results, d.keys, PriorityCountries);
  }

  /** For a response keyed by country codes (no key `"0"`..`"4"`), the answer is
      exactly whether some country outside the priority list offers Netflix. */
  lemma AvailableOnNetflixOutsidePriority(wp: WatchProviders)
    requires wp.results.Some? && wp.results.value.Valid()
    requires forall i | 0 <= i < |PriorityIndexKeys| :: PriorityIndexKeys[i] !in wp.results.value.vals
    ensures AvailableOnNetflix(Some(wp)) <==>
      exists c | c in wp.results.value.vals ::
        c !in PriorityCountries && HasNetflix(wp.results.value.vals[c].flatrate.GetOr([]))
  {
    var d := wp.results.value;
    assert forall i | 0 <= i < |PriorityIndexKeys| :: Flatrate(wp.results, PriorityIndexKeys[i]) == [];
    NetflixAmongIff(wp.results, PriorityIndexKeys, []);
    NetflixAmongIff(wp.results, d.keys, PriorityCountries);
    if AvailableOnNetflix(Some(wp)) {
      var i :| 0 <= i < |d.keys| && d.keys[i] !in PriorityCountries && HasNetflix(Flatrate(wp.results, d.keys[i]));
      assert d.keys[i] in d.vals;
    }
    if c :| c in d.vals && c !in PriorityCountries && HasNetflix(d.vals[c].flatrate.GetOr([])) {
      var i := KeyIndex(d, c);
      assert d.keys[i] !in PriorityCountries && HasNetflix(Flatrate(wp.results, d.keys[i]));
    }
  }

  /** `isAvailableOnNetflix` as evidently intended, with `for..of` over the priority
      list: the priority countries first, then every other country of the response. */
  predicate AvailableOnNetflixIntended(wp: Option<WatchProviders>) {
    wp.Some? &&
    (NetflixAmong(wp.value.results, PriorityCountries, []) ||
     (wp.value.results.Some? && NetflixAmong(wp.value.results, wp.value.results.value.keys, PriorityCountries)))
  }

  /** The intended check holds exactly when some country of the response, priority
      or not, offers Netflix. */
  lemma AvailableOnNetflixIntendedIff(wp: WatchProviders)
    requires wp.results.Some? && wp.results.value.Valid()
    ensures AvailableOnNetflixIntended(Some(wp)) <==>
      exists c | c in wp.results.value.vals :: HasNetflix(wp.results.value.vals[c].flatrate.GetOr([]))
  {
    var d := wp.results.value;
    NetflixAmongIff(wp.results, PriorityCountries, []);
    NetflixAmongIff(wp.results, d.keys, PriorityCountries);
    if NetflixAmong(wp.results, PriorityCountries, []) {
      var i :| 0 <= i < |PriorityCountries| && HasNetflix(Flatrate(wp.results, PriorityCountries[i]));
      assert PriorityCountries[i] in d.vals;
    }
    if wp.results.Some? && NetflixAmong(wp.results, d.keys, PriorityCountries) {
      var i :| 0 <= i < |d.keys| && d.keys[i] !in PriorityCountries && HasNetflix(Flatrate(wp.results, d.keys[i]));
      assert d.keys[i] in d.vals;
    }
    if c :| c in d.vals && HasNetflix(d.vals[c].flatrate.GetOr([])) {
      if c in PriorityCountries {
        var i :| 0 <= i < |PriorityCountries| && PriorityCountries[i] == c;
        assert HasNetflix(Flatrate(wp.results, PriorityCountries[i]));
      } else {
        var i := KeyIndex(d, c);
        assert d.keys[i] !in PriorityCountries && HasNetflix(Flatrate(wp.results, d.keys[i]));
      }
    }
  }

  // ---------------------------------------------------------------- isOnMajorPlatform

  const MajorPlatforms: seq<string> := ["Netflix", "Hulu", "Max", "Disney Plus"]
  const MajorRegions: seq<string> := ["US", "CA", "GB"]

  /** `flatrate.some((p) => majorPlatforms.includes(p.provider_name))`. */
  predicate OffersMajor(ps: seq<Provider>) {
    exists i | 0 <= i < |ps| :: ps[i].providerName in MajorPlatforms
  }

  /** `watchProviders?.results`, with a missing response read as no results. */
  function ResultsOf(wp: Option<WatchProviders>): (r: Option<Dict<string, Region>>)
    ensures wp.None? ==> r.None?
    ensures wp.Some? ==> r == wp.value.results
  {
    if wp.None? then None else wp.value.results
  }

  /** The answer of `isOnMajorPlatform`: US, CA or GB lists a major platform. */
  predicate OnMajorPlatform(wp: Option<WatchProviders>) {
    exists i | 0 <= i < |MajorRegions| :: OffersMajor(Flatrate(ResultsOf(wp), MajorRegions[i]))
  }

  /** `isOnMajorPlatform(watchProviders)`. */
  method IsOnMajorPlatform(wp: Option<WatchProviders>) returns (r: bool)
    ensures r == OnMajorPlatform(wp)
  {
    for n := 0 to |MajorRegions|
      invariant forall i | 0 <= i < n :: !OffersMajor(Flatrate(ResultsOf(wp), MajorRegions[i]))
    {
      if OffersMajor(Flatrate(ResultsOf(wp), MajorRegions[n])) {
        return true;
      }
    }
    return false;
  }

  /** Netflix listed in the US alone: a major platform, yet not "available on Netflix". */
  lemma UsNetflixIsMajorNotAvailable(wp: WatchProviders, ps: seq<Provider>)
    requires wp.results == Some(Dict(["US"], map["US" := Region(Some(ps))]))
    requires HasNetflix(ps)
    ensures OnMajorPlatform(Some(wp))
    ensures !AvailableOnNetflix(Some(wp))
  {
    var i :| 0 <= i < |ps| && ps[i].providerName == "Netflix";
    assert ps[i].providerName in MajorPlatforms;
    assert OffersMajor(Flatrate(ResultsOf(Some(wp)), MajorRegions[0]));
    PriorityOnlyNeverNetflix(wp);
  }
}
