/** The statistics object `userStats` and its `log*` updaters
    (`backend/src/utils/logging.js`). */
module Logging {
  import opened Wrappers
  import opened OrderedDict
  import opened Records
  import opened Viewing
  import opened Binge
  import Helpers

  /** An entry of `watchTimeByTitle`. */
  datatype WatchTime = WatchTime(mediaType: int, posterPath: Option<string>, minutes: int)

  /** `mostBingedShow`. */
  datatype BingeRecord = BingeRecord(title: string, posterPath: Option<string>, epsBinged: int, datesBinged: seq<WatchDate>)

  /** `mostWatchedTitle`. */
  datatype MostWatched = MostWatched(title: string, posterPath: Option<string>, minutes: int)

  /** A `Date` object: `new Date(s)` of a string the platform cannot read is an
      Invalid Date, whose every comparison is false. */
  datatype JsDate = ValidDate(ms: int) | InvalidDate

  /** `oldestWatchedShow` / `oldestWatchedMovie`; `dateObject` starts as `null`. The
      display string `date` is left out. */
  datatype Oldest = Oldest(title: string, posterPath: Option<string>, dateObject: Option<JsDate>)

  /** An element of `showsCompleted`: the count in front, then show names. */
  datatype Cell = Count(n: int) | Name(name: string)

  const NoOldest: Oldest := Oldest("", Some(""), None)

  function Minutes(w: WatchTime): int {
    w.minutes
  }

  /** `showsCompleted[0]` counts the names after it. */
  predicate CompletedValid(sc: seq<Cell>) {
    |sc| >= 1 && sc[0] == Count(|sc| - 1) && forall i | 1 <= i < |sc| :: sc[i].Name?
  }

  // ---------------------------------------------------------------- genres

  /** The count a genre has, 0 when it has none yet. */
  function CountOf(d: Dict<string, int>, name: string): int {
    if name in d.vals then d.vals[name] else 0
  }

  /** One iteration of `logTopGenres`: +1, or a new key with 1. */
  function Tally(d: Dict<string, int>, name: string): (r: Dict<string, int>)
    requires d.Valid()
    ensures r.Valid()
    ensures CountOf(r, name) == CountOf(d, name) + 1
    ensures forall n | n != name :: CountOf(r, n) == CountOf(d, n)
    ensures |d.keys| <= |r.keys| && r.keys[..|d.keys|] == d.keys
  {
    if name in d.vals then d.Put(name, d.vals[name] + 1) else d.Put(name, 1)
  }

  /** The genre counts after `logTopGenres(userStats, genreArray)`. */
  function CountGenres(d: Dict<string, int>, gs: seq<Genre>): (r: Dict<string, int>)
    requires d.Valid()
    ensures r.Valid()
    decreases |gs|
  {
    if |gs| == 0 then d else Tally(CountGenres(d, gs[..|gs| - 1]), gs[|gs| - 1].name)
  }

  lemma CountGenresStep(d: Dict<string, int>, gs: seq<Genre>, i: nat)
    requires d.Valid() && i < |gs|
    ensures CountGenres(d, gs[..i + 1]) == Tally(CountGenres(d, gs[..i]), gs[i].name)
  {
    assert gs[..i + 1][..i] == gs[..i];
  }

  /** The counting loop of `logTopGenres`: one `Tally` per genre, in array order. */
  method CountEach(counts: Dict<string, int>, genreArray: seq<Genre>) returns (tally: Dict<string, int>)
    requires counts.Valid()
    ensures tally.Valid() && tally == CountGenres(counts, genreArray)
  {
    tally := counts;
    for i := 0 to |genreArray|
      invariant tally.Valid() && tally == CountGenres(counts, genreArray[..i])
    {
      CountGenresStep(counts, genreArray, i);
      tally := Tally(tally, genreArray[i].name);
    }
    assert genreArray[..|genreArray|] == genreArray;
  }

  /** How many genres of `gs` are named `name`. */
  function Occurrences(gs: seq<Genre>, name: string): nat
    decreases |gs|
  {
    if |gs| == 0 then 0
    else Occurrences(gs[..|gs| - 1], name) + (if gs[|gs| - 1].name == name then 1 else 0)
  }

  /** Each genre entry adds exactly one to its own name's count and nothing to any
      other; names seen before keep their place, new names follow. */
  lemma {:induction false} GenreCounts(d: Dict<string, int>, gs: seq<Genre>)
    requires d.Valid()
    ensures forall name :: CountOf(CountGenres(d, gs), name) == CountOf(d, name) + Occurrences(gs, name)
    ensures |d.keys| <= |CountGenres(d, gs).keys| && CountGenres(d, gs).keys[..|d.keys|] == d.keys
    decreases |gs|
  {
    if |gs| > 0 {
      var init := gs[..|gs| - 1];
      GenreCounts(d, init);
      var p := CountGenres(d, init);
      assert CountGenres(d, gs) == Tally(p, gs[|gs| - 1].name);
      PrefixOfPrefix(d.keys, p.keys, CountGenres(d, gs).keys);
    }
  }

  lemma PrefixOfPrefix<T>(a: seq<T>, b: seq<T>, c: seq<T>)
    requires |a| <= |b| && b[..|a|] == a
    requires |b| <= |c| && c[..|b|] == b
    ensures |a| <= |c| && c[..|a|] == a
  {
    assert c[..|a|] == c[..|b|][..|a|];
  }

  function GenreKey(e: (string, int)): real {
    -(e.1 as real)
  }

  /** `Object.entries(genres).sort((a, b) => b[1] - a[1]).slice(0, 3)`. */
  function TopGenres(d: Dict<string, int>): seq<(string, int)>
    requires d.Valid()
  {
    Take(SortBy(d.Entries(), GenreKey), 3)
  }

  /** The top genres: at most 3 entries of the tally, by non-increasing count, each
      at least as frequent as every genre left out. */
  lemma TopGenresAreTop(d: Dict<string, int>)
    requires d.Valid()
    ensures var r := TopGenres(d);
      |r| == (if |d.keys| < 3 then |d.keys| else 3) &&
      (forall i | 0 <= i < |r| :: r[i].0 in d.vals && d.vals[r[i].0] == r[i].1) &&
      (forall i, j | 0 <= i < j < |r| :: r[i].1 >= r[j].1) &&
      (forall y | multiset(r)[y] < multiset(d.Entries())[y] :: forall i | 0 <= i < |r| :: y.1 <= r[i].1)
  {
    var r := TopGenres(d);
    assert r == Take(SortBy(d.Entries(), GenreKey), 3);
    TakeSortedEntries(d, GenreKey, 3);
    TopBySort(d.Entries(), GenreKey, 3);
    assert forall i, j | 0 <= i < j < |r| :: GenreKey(r[i]) <= GenreKey(r[j]);
  }

  /** Genres with equal counts keep their insertion order: for each key value `v` (a
      count `c` has the key `-c`), the kept genres with that key are the first ones
      with it in the tally. */
  lemma TopGenresTies(d: Dict<string, int>, v: real)
    requires d.Valid()
    ensures |WithKey(TopGenres(d), GenreKey, v)| <= |WithKey(d.Entries(), GenreKey, v)|
    ensures WithKey(TopGenres(d), GenreKey, v) == WithKey(d.Entries(), GenreKey, v)[..|WithKey(TopGenres(d), GenreKey, v)|]
  {
    TopStableOf(d.Entries(), TopGenres(d), GenreKey, 3, v);
  }

  // ---------------------------------------------------------------- watch time

  /** What `logWatchTime` stores for `title`. */
  function WatchEntry(d: Dict<string, WatchTime>, title: string, mediaType: int, timeWatched: int,
                      titleToData: map<string, TitleRecord>): (w: WatchTime)
    requires title in d.vals || title in titleToData
    ensures title in d.vals ==> w == d.vals[title].(minutes := d.vals[title].minutes + timeWatched)
    ensures title !in d.vals ==> w == WatchTime(mediaType, titleToData[title].posterPath, timeWatched)
  {
    if title in d.vals then d.vals[title].(minutes := d.vals[title].minutes + timeWatched)
    else WatchTime(mediaType, titleToData[title].posterPath, timeWatched)
  }

  function MinutesKey(e: (string, WatchTime)): real {
    -(e.1.minutes as real)
  }

  /** `Object.entries(watchTimeByTitle).sort((a, b) => b[1].minutes - a[1].minutes)`. */
  function ByMinutes(d: Dict<string, WatchTime>): seq<(string, WatchTime)>
    requires d.Valid()
  {
    SortBy(d.Entries(), MinutesKey)
  }

  /** The five titles with most minutes, as `logTopWatchedTitles` keeps them. */
  lemma TopWatchedAreTop(d: Dict<string, WatchTime>)
    requires d.Valid()
    ensures var r := Take(ByMinutes(d), 5);
      |r| == (if |d.keys| < 5 then |d.keys| else 5) &&
      (forall i | 0 <= i < |r| :: r[i].0 in d.vals && d.vals[r[i].0] == r[i].1) &&
      (forall i, j | 0 <= i < j < |r| :: r[i].1.minutes >= r[j].1.minutes) &&
      (forall y | multiset(r)[y] < multiset(d.Entries())[y] :: forall i | 0 <= i < |r| :: y.1.minutes <= r[i].1.minutes)
  {
    var r := Take(ByMinutes(d), 5);
    TakeSortedEntries(d, MinutesKey, 5);
    TopBySort(d.Entries(), MinutesKey, 5);
    assert forall i, j | 0 <= i < j < |r| :: MinutesKey(r[i]) <= MinutesKey(r[j]);
  }

  /** The most-watched title is the first title, in insertion order, with the most
      minutes. */
  lemma MostWatchedIsFirstMax(d: Dict<string, WatchTime>) returns (i: nat)
    requires d.Valid() && |d.keys| > 0
    ensures i < |d.keys| && ByMinutes(d)[0] == (d.keys[i], d.vals[d.keys[i]])
    ensures forall j | 0 <= j < |d.keys| :: d.vals[d.keys[j]].minutes <= d.vals[d.keys[i]].minutes
    ensures forall j | 0 <= j < i :: d.vals[d.keys[j]].minutes < d.vals[d.keys[i]].minutes
  {
    var s := d.Entries();
    i := SortByHead(s, MinutesKey);
    assert forall j | 0 <= j < |s| :: MinutesKey(s[j]) == -(d.vals[d.keys[j]].minutes as real);
  }

  /** What `logMostWatchedTitle` stores: the first entry by minutes, with the poster
      of its record. */
  function MostWatchedOf(d: Dict<string, WatchTime>, titleToData: map<string, TitleRecord>): (m: MostWatched)
    requires d.Valid() && |d.keys| > 0
    requires forall k | k in d.vals :: k in titleToData
    ensures m.title in d.vals && m.minutes == d.vals[m.title].minutes
  {
    var e := ByMinutes(d)[0];
    assert e in multiset(d.Entries());
    MostWatched(e.0, titleToData[e.0].posterPath, e.1.minutes)
  }

  /** The most-watched title has as many minutes as any title, and more than every
      title before it. */
  lemma MostWatchedOfIsFirstMax(d: Dict<string, WatchTime>, titleToData: map<string, TitleRecord>)
    requires d.Valid() && |d.keys| > 0
    requires forall k | k in d.vals :: k in titleToData
    ensures var m := MostWatchedOf(d, titleToData);
      (forall k | k in d.vals :: d.vals[k].minutes <= m.minutes) &&
      exists i | 0 <= i < |d.keys| :: d.keys[i] == m.title && forall j | 0 <= j < i :: d.vals[d.keys[j]].minutes < m.minutes
  {
    var i := MostWatchedIsFirstMax(d);
    forall k | k in d.vals
      ensures d.vals[k].minutes <= MostWatchedOf(d, titleToData).minutes
    {
      var j := KeyIndex(d, k);
    }
  }

  // ---------------------------------------------------------------- oldest title

  /** `new Date(release_date || first_air_date)`: `null` is the epoch. */
  function NewDate(s: Option<string>, parseDate: string -> Option<int>): (r: JsDate)
    ensures s.None? ==> r == ValidDate(0)
    ensures s.Some? ==> (r.ValidDate? <==> parseDate(s.value).Some?)
  {
    match s
    case None => ValidDate(0)
    case Some(text) => if parseDate(text).Some? then ValidDate(parseDate(text).value) else InvalidDate
  }

  /** `date < slot.dateObject`: an Invalid Date on either side compares false, and
      `null` converts to 0. */
  predicate Earlier(date: JsDate, slotDate: Option<JsDate>) {
    date.ValidDate? &&
    match slotDate
    case None => date.ms < 0
    case Some(InvalidDate) => false
    case Some(ValidDate(t)) => date.ms < t
  }

  /** One call for one slot: taken when it is still unnamed, then only by an earlier
      date. */
  function NextOldest(slot: Oldest, title: string, posterPath: Option<string>, date: JsDate): (r: Oldest)
    ensures slot.title == "" ==> r == Oldest(title, posterPath, Some(date))
    ensures slot.title != "" && !Earlier(date, slot.dateObject) ==> r == slot
  {
    if slot.title == "" || Earlier(date, slot.dateObject) then Oldest(title, posterPath, Some(date)) else slot
  }

  /** A title seen with its date, in the order `logUserStats` is called. */
  datatype Sighting = Sighting(title: string, posterPath: Option<string>, date: JsDate)

  function OldestOf(slot: Oldest, cs: seq<Sighting>): Oldest
    decreases |cs|
  {
    if |cs| == 0 then slot
    else
      var c := cs[|cs| - 1];
      NextOldest(OldestOf(slot, cs[..|cs| - 1]), c.title, c.posterPath, c.date)
  }

  /** With named titles and valid dates, the slot ends with the first sighting of the
      earliest date. */
  lemma {:induction false} OldestIsFirstEarliest(cs: seq<Sighting>) returns (i: nat)
    requires |cs| > 0
    requires forall j | 0 <= j < |cs| :: cs[j].title != "" && cs[j].date.ValidDate?
    ensures i < |cs| && OldestOf(NoOldest, cs) == Oldest(cs[i].title, cs[i].posterPath, Some(cs[i].date))
    ensures forall j | 0 <= j < |cs| :: cs[i].date.ms <= cs[j].date.ms
    ensures forall j | 0 <= j < i :: cs[j].date.ms > cs[i].date.ms
    decreases |cs|
  {
    var n := |cs| - 1;
    if n == 0 {
      i := 0;
    } else {
      var init := cs[..n];
      var k := OldestIsFirstEarliest(init);
      assert forall j | 0 <= j < n :: init[j] == cs[j];
      i := if cs[n].date.ms < cs[k].date.ms then n else k;
    }
  }

  /** Once a named slot holds an Invalid Date, no later call replaces it. */
  lemma {:induction false} InvalidDateSticks(slot: Oldest, cs: seq<Sighting>)
    requires slot.title != "" && slot.dateObject == Some(InvalidDate)
    ensures OldestOf(slot, cs) == slot
    decreases |cs|
  {
    if |cs| > 0 {
      InvalidDateSticks(slot, cs[..|cs| - 1]);
    }
  }

  /** The inner loop of `logMostBingedShow` over one title's sorted dates. */
  method ScanTitle(title: string, dateList: seq<WatchDate>, mostBinged0: string, longest0: int, dates0: seq<WatchDate>)
    returns (mostBinged: string, longestBingeStreak: int, mostBingedDates: seq<WatchDate>)
    ensures Best(mostBinged, longestBingeStreak, mostBingedDates) == TitleBest(title, dateList, Best(mostBinged0, longest0, dates0))
  {
    mostBinged, longestBingeStreak, mostBingedDates := mostBinged0, longest0, dates0;
    if |dateList| == 0 {
      return;
    }
    ghost var before := Best(mostBinged0, longest0, dates0);
    var currentBingeStreak := 1;
    var epsWatchedConsecutively := 1;
    var currBingedDates := [dateList[0]];
    for i := 1 to |dateList|
      invariant (Run(currentBingeStreak, epsWatchedConsecutively, currBingedDates),
                 Best(mostBinged, longestBingeStreak, mostBingedDates)) == Scan(title, dateList, i, before)
    {
      var diff := dateList[i].Millis() - dateList[i - 1].Millis();
      if diff <= EpisodeGapMs {
        epsWatchedConsecutively := epsWatchedConsecutively + 1;
        currentBingeStreak := currentBingeStreak + 1;
        currBingedDates := currBingedDates + [dateList[i]];
      } else if epsWatchedConsecutively >= 3 && diff < InertiaGapMs {
        epsWatchedConsecutively := 1;
        currentBingeStreak := currentBingeStreak + 1;
        currBingedDates := currBingedDates + [dateList[i]];
      } else {
        epsWatchedConsecutively := 1;
        currentBingeStreak := 1;
        currBingedDates := [];
      }
      if currentBingeStreak > longestBingeStreak {
        mostBinged := title;
        longestBingeStreak := currentBingeStreak;
        mostBingedDates := currBingedDates;
      }
    }
  }

  /** Sorting the dates of key `n` moves the index one title closer to `sorted`. */
  lemma SortedStep(d0: Dict<string, Entry>, sorted: Dict<string, Entry>, d: Dict<string, Entry>, n: nat)
    requires IndexValid(d0) && n < |d0.keys|
    requires IndexValid(sorted) && sorted.vals.Keys == d0.vals.Keys
    requires IndexValid(d) && d.keys == d0.keys && d.vals.Keys == d0.vals.Keys
    requires forall j | 0 <= j < n :: d.vals[d0.keys[j]] == sorted.vals[d0.keys[j]]
    requires forall j | n <= j < |d0.keys| :: d.vals[d0.keys[j]] == d0.vals[d0.keys[j]]
    ensures var d' := d.Put(d0.keys[n], sorted.vals[d0.keys[n]]);
      IndexValid(d') && d'.keys == d0.keys && d'.vals.Keys == d0.vals.Keys &&
      (forall j | 0 <= j < n + 1 :: d'.vals[d0.keys[j]] == sorted.vals[d0.keys[j]]) &&
      (forall j | n + 1 <= j < |d0.keys| :: d'.vals[d0.keys[j]] == d0.vals[d0.keys[j]])
  {
    var keys := d0.keys;
    var d' := d.Put(keys[n], sorted.vals[keys[n]]);
    assert forall j | n + 1 <= j < |keys| :: keys[j] != keys[n];
  }

  lemma TitlesStep(d: Dict<string, Entry>, n: nat)
    requires d.Valid() && n < |d.keys|
    ensures Titles(d, n + 1) == TitleBest(d.keys[n], d.vals[d.keys[n]].datesWatched, Titles(d, n))
  {
  }

  /** Once every key is sorted, the index is the sorted index. */
  lemma SortedDone(d0: Dict<string, Entry>, sorted: Dict<string, Entry>, d: Dict<string, Entry>)
    requires IndexValid(d0) && sorted == SortedIndex(d0)
    requires d.keys == d0.keys && d.vals.Keys == d0.vals.Keys
    requires forall j | 0 <= j < |d0.keys| :: d.vals[d0.keys[j]] == sorted.vals[d0.keys[j]]
    ensures d == sorted
  {
    forall k | k in d.vals ensures d.vals[k] == sorted.vals[k] {
      var j := KeyIndex(d0, k);
    }
  }

  /** The loops of `logMostBingedShow`: each title's dates are sorted in place, then
      scanned in key order. */
  method SortAndScan(index: ViewingIndex) returns (mostBinged: string, longestBingeStreak: int, mostBingedDates: seq<WatchDate>)
    requires index.Valid()
    modifies index
    ensures index.Valid() && index.entries == SortedIndex(old(index.entries))
    ensures Best(mostBinged, longestBingeStreak, mostBingedDates) == MostBinged(index.entries)
  {
    ghost var d0 := index.entries;
    ghost var sorted := SortedIndex(d0);
    var keys := index.entries.keys;
    mostBinged := "";
    mostBingedDates := [];
    longestBingeStreak := 1;
    for n := 0 to |keys|
      invariant IndexValid(index.entries) && index.entries.keys == keys && index.entries.vals.Keys == d0.vals.Keys
      invariant forall j | 0 <= j < n :: index.entries.vals[keys[j]] == sorted.vals[keys[j]]
      invariant forall j | n <= j < |keys| :: index.entries.vals[keys[j]] == d0.vals[keys[j]]
      invariant Best(mostBinged, longestBingeStreak, mostBingedDates) == Titles(sorted, n)
    {
      var title := keys[n];
      var value := index.entries.vals[title];
      var dateList := SortedDates(value.datesWatched);
      assert Entry(dateList, value.titleFrequency) == sorted.vals[title];
      SortedStep(d0, sorted, index.entries, n);
      index.entries := index.entries.Put(title, Entry(dateList, value.titleFrequency));
      ghost var prev := Best(mostBinged, longestBingeStreak, mostBingedDates);
      TitlesStep(sorted, n);
      assert Titles(sorted, n + 1) == TitleBest(title, dateList, prev);
      mostBinged, longestBingeStreak, mostBingedDates := ScanTitle(title, dateList, mostBinged, longestBingeStreak, mostBingedDates);
    }
    SortedDone(d0, sorted, index.entries);
  }

  // ---------------------------------------------------------------- userStats

  /** `mostBingedShow` as evidently intended, with the poster read as
      `titleToData[title]?.poster_path`: defined for every record, so nothing throws,
      and equal to what `logMostBingedShow` stores whenever the title has data. */
  function BingeRecordGuarded(b: Best, titleToData: map<string, TitleRecord>): (r: BingeRecord)
    ensures b.title in titleToData ==> r == BingeRecord(b.title, titleToData[b.title].posterPath, b.streak, b.dates)
    ensures b.title !in titleToData ==> r == BingeRecord(b.title, None, b.streak, b.dates)
  {
    BingeRecord(b.title, if b.title in titleToData then titleToData[b.title].posterPath else None, b.streak, b.dates)
  }

  /** `logNumShowsCompleted`'s test as evidently intended: a show is completed when its
      episode count is known and it was watched at least that many times. */
  predicate CompletedIntended(freq: int, numEps: Option<int>) {
    numEps.Some? && freq >= numEps.value
  }

  /** As written, a show without an episode count is completed as soon as it is
      watched at all (`null` compares as 0); as intended it never is. The two agree
      whenever the count is known. */
  lemma MissingEpisodeCountCompletes(freq: nat, numEps: Option<int>)
    ensures numEps.None? ==> freq >= numEps.GetOr(0) && !CompletedIntended(freq, numEps)
    ensures numEps.Some? ==> (CompletedIntended(freq, numEps) <==> freq >= numEps.GetOr(0))
  {
  }

  /** The fields of `userStats`, as one value. */
  datatype Stats = Stats(
    genres: Dict<string, int>,
    topGenres: seq<(string, int)>,
    total: int,
    tvShows: int,
    movies: int,
    totalWatchTime: int,
    watchTimeByTitle: Dict<string, WatchTime>,
    topWatchedTitles: seq<(string, WatchTime)>,
    mostBingedShow: BingeRecord,
    mostWatchedTitle: MostWatched,
    oldestWatchedShow: Oldest,
    oldestWatchedMovie: Oldest,
    showsCompleted: seq<Cell>,
    missedCount: int,
    missedTitles: seq<string>)

  /** The invariants of `UserStats.Valid`, on a value. */
  predicate StatsValid(st: Stats) {
    st.genres.Valid() && st.watchTimeByTitle.Valid() &&
    st.totalWatchTime == st.watchTimeByTitle.Sum(Minutes) &&
    CompletedValid(st.showsCompleted) &&
    st.missedCount == |st.missedTitles|
  }

  /** The `userStats` literal the module starts with and `resetUserStats` assigns
      again: empty dictionaries and lists, zero counts, unnamed records with empty
      posters, `null` oldest dates, and a completed list holding only its count 0. */
  const InitialStats: Stats :=
    Stats(Empty(), [], 0, 0, 0, 0, Empty(), [],
          BingeRecord("", Some(""), 0, []), MostWatched("", Some(""), 0), NoOldest, NoOldest,
          [Count(0)], 0, [])

  class UserStats {
    var genres: Dict<string, int>
    var topGenres: seq<(string, int)>
    var total: int
    var tvShows: int
    var movies: int
    var totalWatchTime: int
    var watchTimeByTitle: Dict<string, WatchTime>
    var topWatchedTitles: seq<(string, WatchTime)>
    var mostBingedShow: BingeRecord
    var mostWatchedTitle: MostWatched
    var oldestWatchedShow: Oldest
    var oldestWatchedMovie: Oldest
    var showsCompleted: seq<Cell>
    var missedCount: int
    var missedTitles: seq<string>

    /** The invariants every updater keeps: the two dictionaries are well formed,
        the total watch time is the sum of the per-title minutes, the completed count
        is the number of completed names, and the missed count is the number of
        missed titles. */
    predicate Valid()
      reads this`genres, this`watchTimeByTitle, this`totalWatchTime, this`showsCompleted, this`missedCount, this`missedTitles
    {
      genres.Valid() && watchTimeByTitle.Valid() &&
      totalWatchTime == watchTimeByTitle.Sum(Minutes) &&
      CompletedValid(showsCompleted) &&
      missedCount == |missedTitles|
    }

    /** Every counted title is a show or a movie. */
    predicate Counted()
      reads this`total, this`tvShows, this`movies
    {
      total == tvShows + movies
    }

    /** The statistics as a value. */
    function Snapshot(): (st: Stats)
      reads this
      ensures StatsValid(st) <==> Valid()
      ensures st.total == st.tvShows + st.movies <==> Counted()
    {
      Stats(genres, topGenres, total, tvShows, movies, totalWatchTime, watchTimeByTitle, topWatchedTitles,
            mostBingedShow, mostWatchedTitle, oldestWatchedShow, oldestWatchedMovie, showsCompleted, missedCount,
            missedTitles)
    }

    /** The initial `userStats` literal (and what `resetUserStats` assigns). */
    constructor ()
      ensures Valid() && Counted()
      ensures Snapshot() == InitialStats
    {
      genres := Empty();
      topGenres := [];
      total, tvShows, movies := 0, 0, 0;
      totalWatchTime := 0;
      watchTimeByTitle := Empty();
      topWatchedTitles := [];
      mostBingedShow := BingeRecord("", Some(""), 0, []);
      mostWatchedTitle := MostWatched("", Some(""), 0);
      oldestWatchedShow := NoOldest;
      oldestWatchedMovie := NoOldest;
      showsCompleted := [Count(0)];
      missedCount := 0;
      missedTitles := [];
    }

    /** `logTopGenres(userStats, genreArray)`, for an already parsed genre array. */
    method LogTopGenres(genreArray: seq<Genre>)
      requires Valid()
      modifies this`genres
      ensures Valid()
      ensures genres == CountGenres(old(genres), genreArray)
    {
      genres := CountEach(genres, genreArray);
    }

    /** `getTopGenres(userStats)`: sets `topGenres`. */
    method GetTopGenres()
      requires Valid()
      modifies this`topGenres
      ensures Valid()
      ensures topGenres == TopGenres(genres)
    {
      topGenres := Take(SortBy(genres.Entries(), GenreKey), 3);
    }

    /** `logUniqueShowsAndMovies(userStats, mediaType)`. */
    method LogUniqueShowsAndMovies(mediaType: int)
      requires Valid()
      modifies this`tvShows, this`movies
      ensures Valid()
      ensures mediaType == 0 ==> tvShows == old(tvShows) + 1 && movies == old(movies)
      ensures mediaType != 0 ==> movies == old(movies) + 1 && tvShows == old(tvShows)
    {
      if mediaType == 0 {
        tvShows := tvShows + 1;
      } else {
        movies := movies + 1;
      }
    }

    /** `logUniqueTitlesWatched(userStats)`. */
    method LogUniqueTitlesWatched()
      requires Valid()
      modifies this`total
      ensures Valid()
      ensures total == old(total) + 1
    {
      total := total + 1;
    }

    /** `logWatchTime(userStats, title, mediaType, timeWatched, titleToData)`; the
        poster is read from `titleToData` only for a new entry. */
    method LogWatchTime(title: string, mediaType: int, timeWatched: int, titleToData: map<string, TitleRecord>)
      requires Valid()
      requires title in watchTimeByTitle.vals || title in titleToData
      modifies this`totalWatchTime, this`watchTimeByTitle
      ensures Valid()
      ensures totalWatchTime == old(totalWatchTime) + timeWatched
      ensures watchTimeByTitle ==
        old(watchTimeByTitle).Put(title, WatchEntry(old(watchTimeByTitle), title, mediaType, timeWatched, titleToData))
    {
      var w := WatchEntry(watchTimeByTitle, title, mediaType, timeWatched, titleToData);
      PutSum(watchTimeByTitle, title, w, Minutes);
      totalWatchTime := totalWatchTime + timeWatched;
      watchTimeByTitle := watchTimeByTitle.Put(title, w);
    }

    /** `logTopWatchedTitles(userStats)`. */
    method LogTopWatchedTitles()
      requires Valid()
      modifies this`topWatchedTitles
      ensures Valid()
      ensures topWatchedTitles == Take(ByMinutes(watchTimeByTitle), 5)
    {
      topWatchedTitles := Take(SortBy(watchTimeByTitle.Entries(), MinutesKey), 5);
    }

    /** `logMostWatchedTitle(userStats, titleToData)`: destructuring the first entry
        of an empty list throws, and so does a title without data. */
    method LogMostWatchedTitle(titleToData: map<string, TitleRecord>)
      requires Valid() && |watchTimeByTitle.keys| > 0
      requires forall k | k in watchTimeByTitle.vals :: k in titleToData
      modifies this`mostWatchedTitle
      ensures Valid()
      ensures mostWatchedTitle == MostWatchedOf(watchTimeByTitle, titleToData)
    {
      var sorted := SortBy(watchTimeByTitle.Entries(), MinutesKey);
      var (title, mostWatched) := sorted[0];
      assert sorted[0] in multiset(watchTimeByTitle.Entries());
      mostWatchedTitle := MostWatched(title, titleToData[title].posterPath, mostWatched.minutes);
    }

    /** `logMostBingedShow(userStats, titleToDateFreq, titleToData)`: sorts every title's
        dates in place, runs the streak rules over them, and stores the record; `ok` is
        false when the record's title has no data (the poster lookup throws). */
    method LogMostBingedShow(index: ViewingIndex, titleToData: map<string, TitleRecord>) returns (ok: bool)
      requires Valid() && index.Valid()
      modifies this`mostBingedShow, index
      ensures Valid()
      ensures index.Valid() && index.entries == SortedIndex(old(index.entries))
      ensures var b := MostBinged(index.entries);
        ok == (b.title in titleToData) &&
        (ok ==> mostBingedShow == BingeRecord(b.title, titleToData[b.title].posterPath, b.streak, b.dates)) &&
        (!ok ==> mostBingedShow == old(mostBingedShow))
    {
      var mostBinged, longestBingeStreak, mostBingedDates := SortAndScan(index);
      if mostBinged in titleToData {
        mostBingedShow := BingeRecord(mostBinged, titleToData[mostBinged].posterPath, longestBingeStreak, mostBingedDates);
        ok := true;
      } else {
        ok := false;
      }
    }

    /** `logNumShowsCompleted(titleToDateFreq, userStats, numEps, showName)`: a show is
        completed when watched at least `numEps` times; `null` compares as 0. */
    method LogNumShowsCompleted(index: ViewingIndex, numEps: Option<int>, showName: string)
      requires Valid() && showName in index.entries.vals
      modifies this`showsCompleted
      ensures Valid()
      ensures Helpers.GetTitleWatchFrequency(index, showName) >= numEps.GetOr(0) ==>
        showsCompleted == [Count(|old(showsCompleted)|)] + old(showsCompleted)[1..] + [Name(showName)]
      ensures Helpers.GetTitleWatchFrequency(index, showName) < numEps.GetOr(0) ==>
        showsCompleted == old(showsCompleted)
    {
      var titleFrequency := Helpers.GetTitleWatchFrequency(index, showName);
      if titleFrequency >= numEps.GetOr(0) {
        showsCompleted := [Count(showsCompleted[0].n + 1)] + showsCompleted[1..] + [Name(showName)];
      }
    }

    /** `logOldestWatchedShowAndMovie(userStats, mediaType, release_date, title, titleToData)`. */
    method LogOldestWatchedShowAndMovie(mediaType: int, releaseDate: Option<string>, title: string,
                                        titleToData: map<string, TitleRecord>, parseDate: string -> Option<int>)
      requires Valid() && title in titleToData
      modifies this`oldestWatchedShow, this`oldestWatchedMovie
      ensures Valid()
      ensures var date := NewDate(releaseDate, parseDate);
        if mediaType == 0 then
          oldestWatchedShow == NextOldest(old(oldestWatchedShow), title, titleToData[title].posterPath, date) &&
          oldestWatchedMovie == old(oldestWatchedMovie)
        else
          oldestWatchedMovie == NextOldest(old(oldestWatchedMovie), title, titleToData[title].posterPath, date) &&
          oldestWatchedShow == old(oldestWatchedShow)
    {
      var date := NewDate(releaseDate, parseDate);
      if mediaType == 0 {
        if oldestWatchedShow.title == "" {
          oldestWatchedShow := Oldest(title, titleToData[title].posterPath, Some(date));
        } else if Earlier(date, oldestWatchedShow.dateObject) {
          oldestWatchedShow := Oldest(title, titleToData[title].posterPath, Some(date));
        }
      } else {
        if oldestWatchedMovie.title == "" {
          oldestWatchedMovie := Oldest(title, titleToData[title].posterPath, Some(date));
        } else if Earlier(date, oldestWatchedMovie.dateObject) {
          oldestWatchedMovie := Oldest(title, titleToData[title].posterPath, Some(date));
        }
      }
    }

    /** `logMissedTitles(userStats, title)`. */
    method LogMissedTitles(title: string)
      requires Valid()
      modifies this`missedCount, this`missedTitles
      ensures Valid()
      ensures missedCount == old(missedCount) + 1 && missedTitles == old(missedTitles) + [title]
    {
      missedCount := missedCount + 1;
      missedTitles := missedTitles + [title];
    }
  }
}
