/** The server's pipeline (`backend/src/server.js`): the CSV header check and row
    handler that build the viewing index, the resolution of each title against the
    title cache, the fuzzy matcher and the metadata provider, the merge of raw titles
    into canonical ones, and the statistics pass over the merged index. The external
    services are the oracles of `Services`. */
module Server {
  import opened Wrappers
  import opened Strings
  import opened OrderedDict
  import opened Records
  import opened Viewing
  import opened Binge
  import opened Logging
  import opened Progress
  import Helpers

  /** What the pipeline asks of the outside world. `cache` holds the title cache's rows
      under their lower-cased `normalized_title` (the look-up is `COLLATE NOCASE`);
      `similar` is the string-similarity best match over the cached titles, with its
      rating and its row; the provider calls give `None` where the client returns
      `false`; `parseDate` is `new Date(text)`, `None` for an Invalid Date. */
  datatype Services = Services(
    cache: map<string, TitleRecord>,
    similar: string -> (real, TitleRecord),
    search: string -> Option<seq<Candidate>>,
    tvProviders: int -> Option<WatchProviders>,
    movieProviders: int -> Option<WatchProviders>,
    tvDetails: int -> Option<Details>,
    movieDetails: int -> Option<Details>,
    parseDate: string -> Option<int>)

  // ---------------------------------------------------------------- parseCSV: headers

  /** `h.trim().toLowerCase()`. */
  function NormalizedHeader(h: string): string {
    Lower(Trim(h))
  }

  /** The `headers` handler's test: exactly two columns which, trimmed and lower-cased,
      are "title" and "date" in either order. */
  function HeadersValid(headers: seq<string>): (r: bool)
    ensures r <==> (|headers| == 2 &&
      ((NormalizedHeader(headers[0]) == "title" && NormalizedHeader(headers[1]) == "date") ||
       (NormalizedHeader(headers[0]) == "date" && NormalizedHeader(headers[1]) == "title")))
  {
    |headers| == 2 &&
    var normalized := [NormalizedHeader(headers[0]), NormalizedHeader(headers[1])];
    assert |"title"| != |"date"|;
    "title" in normalized && "date" in normalized
  }

  // ---------------------------------------------------------------- parseCSV: rows

  /** `row.Title`, `row.Date`: a property of the parsed row, `undefined` when the CSV
      has no column of exactly that name. */
  function Column(row: map<string, string>, name: string): (r: Option<string>)
    ensures r.Some? <==> name in row
    ensures r.Some? ==> r.value == row[name]
  {
    if name in row then Some(row[name]) else None
  }

  /** `getDate(rawDate)`: `null` for a date the platform cannot read. */
  function RowDate(rawDate: string, parseDate: string -> Option<int>): (r: WatchDate)
    ensures r.NullDate? <==> parseDate(rawDate).None?
    ensures r.Watched? ==> r.ms == parseDate(rawDate).value
  {
    match parseDate(rawDate)
    case Some(ms) => Watched(ms)
    case None => NullDate
  }

  /** Whether the row handler indexes a row: both cells are non-blank strings and the
      title is not blank once its episodic keywords are cut. `!isNaN(date)` holds for a
      `Date` and for `null` alike, so an unreadable date does not reject the row. */
  predicate RowAccepted(row: map<string, string>) {
    Helpers.IsValidString(Column(row, "Title")) && Helpers.IsValidString(Column(row, "Date")) &&
    Helpers.IsValidString(Some(Helpers.EpisodicStripped(row["Title"])))
  }

  /** The row handler's checks: both cells present and non-blank, then the title with
      its episodic keywords cut, which must not be blank either. */
  method CleanRow(row: map<string, string>) returns (accepted: bool, title: string)
    ensures accepted == RowAccepted(row)
    ensures accepted ==> title == Helpers.EpisodicStripped(row["Title"])
  {
    var rawTitle := Column(row, "Title");
    var rawDate := Column(row, "Date");
    accepted := false;
    title := "";
    if Helpers.IsValidString(rawTitle) && Helpers.IsValidString(rawDate) {
      title := Helpers.RemoveEpisodicKeywords(rawTitle.value);
      accepted := Helpers.IsValidString(Some(title));
    }
  }

  /** The index after the row handler has seen the first `n` rows. */
  function IndexRows(d: Dict<string, Entry>, rows: seq<map<string, string>>, n: nat, parseDate: string -> Option<int>)
    : (r: Dict<string, Entry>)
    requires IndexValid(d) && n <= |rows|
    ensures IndexValid(r)
  {
    if n == 0 then d
    else
      var prev := IndexRows(d, rows, n - 1, parseDate);
      if RowAccepted(rows[n - 1]) then
        WithRow(prev, Helpers.EpisodicStripped(rows[n - 1]["Title"]), RowDate(rows[n - 1]["Date"], parseDate))
      else prev
  }

  /** How many of the first `n` rows the row handler accepts. */
  function AcceptedCount(rows: seq<map<string, string>>, n: nat): nat
    requires n <= |rows|
  {
    if n == 0 then 0 else AcceptedCount(rows, n - 1) + (if RowAccepted(rows[n - 1]) then 1 else 0)
  }

  /** Every accepted row adds exactly one watch to the index, and no other row does. */
  lemma {:induction false} IndexRowsCountsAccepted(d: Dict<string, Entry>, rows: seq<map<string, string>>, n: nat,
                                                   parseDate: string -> Option<int>)
    requires IndexValid(d) && n <= |rows|
    ensures TotalFrequency(IndexRows(d, rows, n, parseDate)) == TotalFrequency(d) + AcceptedCount(rows, n)
  {
    if n > 0 {
      IndexRowsCountsAccepted(d, rows, n - 1, parseDate);
    }
  }

  /** The header check ignores case but the row handler reads `row.Title` and
      `row.Date` as written: a file headed "title,date" passes the header check, and then no
      row of it is indexed. */
  lemma LowerCaseHeadersIndexNothing(row: map<string, string>)
    requires "Title" !in row
    ensures HeadersValid(["title", "date"])
    ensures !RowAccepted(row)
  {
    assert IsTrimmed("title") && IsTrimmed("date");
    assert Lower("title") == "title";
    assert Lower("date") == "date";
  }

  /** The cell under the first of the checked headers that normalises to `name`: a
      row reader keyed by the headers the header check accepted. */
  function ColumnByHeader(headers: seq<string>, row: map<string, string>, name: string): (r: Option<string>)
    ensures r.Some? ==>
      exists i | 0 <= i < |headers| :: NormalizedHeader(headers[i]) == name && headers[i] in row && r.value == row[headers[i]]
    decreases |headers|
  {
    if |headers| == 0 then None
    else if NormalizedHeader(headers[0]) == name && headers[0] in row then Some(row[headers[0]])
    else
      var r := ColumnByHeader(headers[1..], row, name);
      assert r.Some? ==> exists i | 0 <= i < |headers[1..]| ::
        NormalizedHeader(headers[1..][i]) == name && headers[1..][i] in row && r.value == row[headers[1..][i]];
      assert forall i | 0 <= i < |headers[1..]| :: headers[1..][i] == headers[i + 1];
      r
  }

  /** The row handler as evidently intended: it reads the columns the header check
      accepted, whatever their letter case and surrounding white space, and rejects a
      row whose date does not parse. */
  predicate RowAcceptedIntended(headers: seq<string>, row: map<string, string>, parseDate: string -> Option<int>) {
    var title := ColumnByHeader(headers, row, "title");
    var date := ColumnByHeader(headers, row, "date");
    Helpers.IsValidString(title) && Helpers.IsValidString(date) &&
    Helpers.IsValidString(Some(Helpers.EpisodicStripped(title.value))) && parseDate(date.value).Some?
  }

  /** Under the intended reader, the "title,date" file that the row handler as written
      ignores is indexed: a row whose cells it would accept under "Title,Date" is
      accepted here. */
  lemma LowerCaseHeadersIndexedIntended(row: map<string, string>, parseDate: string -> Option<int>)
    requires "title" in row && "date" in row
    requires RowAccepted(map["Title" := row["title"], "Date" := row["date"]]) && parseDate(row["date"]).Some?
    ensures HeadersValid(["title", "date"])
    ensures RowAcceptedIntended(["title", "date"], row, parseDate)
  {
    var hs := ["title", "date"];
    NormalizedCanonical();
    assert ColumnByHeader(hs, row, "title") == Some(row["title"]);
    assert hs[1..] == ["date"];
    assert ColumnByHeader(["date"], row, "date") == Some(row["date"]);
    assert ColumnByHeader(hs, row, "date") == Some(row["date"]);
    CanonicalCells(row["title"], row["date"]);
  }

  /** The cells of a row keyed "Title" and "Date". */
  lemma CanonicalCells(t: string, d: string)
    ensures var m := map["Title" := t, "Date" := d];
      Column(m, "Title") == Some(t) && Column(m, "Date") == Some(d) && m["Title"] == t && m["Date"] == d
  {
  }

  /** Under the canonical headers the intended reader accepts exactly the rows the
      handler as written accepts whose date parses; so it never indexes a `null`
      date, while the handler as written indexes every accepted row's date. */
  lemma RowAcceptedIntendedAgrees(row: map<string, string>, parseDate: string -> Option<int>)
    ensures RowAcceptedIntended(["Title", "Date"], row, parseDate) <==>
      RowAccepted(row) && RowDate(row["Date"], parseDate).Watched?
    ensures RowAccepted(row) && parseDate(row["Date"]).None? ==> RowDate(row["Date"], parseDate) == NullDate
  {
    var hs := ["Title", "Date"];
    NormalizedCanonical();
    assert hs[1..] == ["Date"];
    assert ColumnByHeader(hs, row, "title") == Column(row, "Title");
    assert ColumnByHeader(["Date"], row, "date") == Column(row, "Date");
    assert ColumnByHeader(hs, row, "date") == Column(row, "Date");
  }

  /** The four header spellings the lemmas use normalise as expected. */
  lemma NormalizedCanonical()
    ensures NormalizedHeader("title") == "title" && NormalizedHeader("date") == "date"
    ensures NormalizedHeader("Title") == "title" && NormalizedHeader("Date") == "date"
    ensures NormalizedHeader("Title") != "date" && NormalizedHeader("title") != "date"
  {
    assert IsTrimmed("title") && IsTrimmed("date") && IsTrimmed("Title") && IsTrimmed("Date");
    assert Lower("title") == "title";
    assert Lower("date") == "date";
    assert Lower("Title") == "title";
    assert Lower("Date") == "date";
  }

  // ---------------------------------------------------------------- getData

  /** `db.getCachedResult(title)`: the row whose title equals `title` ignoring case. */
  function CachedResult(s: Services, title: string): (r: Option<TitleRecord>)
    ensures r.Some? <==> Lower(title) in s.cache
    ensures r.Some? ==> r.value == s.cache[Lower(title)]
  {
    if Lower(title) in s.cache then Some(s.cache[Lower(title)]) else None
  }

  /** `db.getBestTitleMatch(term)`: the best match counts only above a rating of 0.9. */
  function BestTitleMatch(s: Services, term: string): (r: Option<TitleRecord>)
    ensures r.Some? <==> s.similar(term).0 > 0.9
    ensures r.Some? ==> r.value == s.similar(term).1
  {
    var (rating, row) := s.similar(term);
    if rating > 0.9 then Some(row) else None
  }

  /** The second look-up's key: every `&` becomes "and" and the text is cut at the
      first `(`. With no `(`, `substring(0, -1)` is `substring(0, 0)`, so the key
      is "". */
  function VariantTerm(title: string): (r: string)
    ensures '&' !in r && '(' !in r && IsTrimmed(r)
    ensures '(' !in title ==> r == ""
    ensures '(' in title ==> r == Trim(ReplaceAll(title[..Find(title, '(')], '&', "and"))
  {
    var u := ReplaceAll(title, '&', "and");
    ReplaceAllKeeps(title, '&', "and", '(');
    var i := Find(u, '(');
    var cut := if i < 0 then "" else u[..i];
    assert '(' in title ==> cut == ReplaceAll(title[..Find(title, '(')], '&', "and") by {
      if '(' in title {
        ReplaceAllBefore(title, '&', "and", '(');
      }
    }
    assert '&' !in cut && '(' !in cut;
    TrimAbsent(cut, '&');
    TrimAbsent(cut, '(');
    assert Trim("") == "" by { assert IsTrimmed(""); }
    Trim(cut)
  }

  /** The variant key as evidently intended: a title without `(` is kept whole, with
      every `&` spelled "and", trimmed; a title with one is cut as written. A title
      with text and no `(` so gets a key with text, where `VariantTerm` gives "". */
  function VariantTermIntended(title: string): (r: string)
    ensures '&' !in r && IsTrimmed(r)
    ensures '(' in title ==> r == VariantTerm(title)
    ensures '(' !in title && Helpers.IsValidString(Some(title)) ==> r != ""
  {
    if '(' in title then VariantTerm(title)
    else
      var u := ReplaceAll(title, '&', "and");
      TrimAbsent(u, '&');
      AndKeepsText(title);
      TrimEmpty(u);
      Trim(u)
  }

  /** Spelling `&` as "and" keeps a character other than white space. */
  lemma {:induction false} AndKeepsText(s: string)
    ensures (exists i | 0 <= i < |s| :: !IsSpace(s[i])) ==>
      exists i | 0 <= i < |ReplaceAll(s, '&', "and")| :: !IsSpace(ReplaceAll(s, '&', "and")[i])
    decreases |s|
  {
    if |s| > 0 {
      AndKeepsText(s[1..]);
      var head := if s[0] == '&' then "and" else [s[0]];
      var tail := ReplaceAll(s[1..], '&', "and");
      assert ReplaceAll(s, '&', "and") == head + tail;
      if !IsSpace(s[0]) {
        assert !IsSpace((head + tail)[0]);
      } else if exists i | 0 <= i < |s| :: !IsSpace(s[i]) {
        var i :| 0 <= i < |s| && !IsSpace(s[i]);
        assert 0 <= i - 1 < |s[1..]| && !IsSpace(s[1..][i - 1]);
        var j :| 0 <= j < |tail| && !IsSpace(tail[j]);
        assert (head + tail)[|head| + j] == tail[j];
      }
    }
  }

  /** The loop the fuzzy stage and the search share: try the chunks joined, and while a
      try misses and chunks remain, drop the last chunk and try again. */
  function Shorten<T>(attempt: seq<string> -> Option<T>, chunks: seq<string>): Option<T>
    decreases |chunks|
  {
    if |chunks| == 0 then None
    else
      var hit := attempt(chunks);
      if hit.Some? then hit else Shorten(attempt, DropLast(chunks))
  }

  /** The hit comes from the longest prefix of the chunks whose try hits, and there is
      none only when every prefix misses. */
  lemma {:induction false} ShortenFirstHit<T>(attempt: seq<string> -> Option<T>, chunks: seq<string>) returns (k: nat)
    ensures k <= |chunks|
    ensures forall j | k < j <= |chunks| :: attempt(chunks[..j]).None?
    ensures k == 0 <==> Shorten(attempt, chunks).None?
    ensures k > 0 ==> Shorten(attempt, chunks) == attempt(chunks[..k])
    decreases |chunks|
  {
    if |chunks| == 0 {
      k := 0;
    } else if attempt(chunks).Some? {
      k := |chunks|;
      assert chunks[..k] == chunks;
    } else {
      var rest := DropLast(chunks);
      k := ShortenFirstHit(attempt, rest);
      forall j | 0 < j < |chunks| ensures rest[..j] == chunks[..j] {
      }
      assert chunks[..|chunks|] == chunks;
    }
  }

  /** A hit is the hit of some prefix. */
  lemma ShortenHit<T>(attempt: seq<string> -> Option<T>, chunks: seq<string>)
    requires Shorten(attempt, chunks).Some?
    ensures exists j | 0 < j <= |chunks| :: Shorten(attempt, chunks) == attempt(chunks[..j])
  {
    var k := ShortenFirstHit(attempt, chunks);
  }

  /** A try of the fuzzy stage: the similarity match of the chunks joined with no
      separator. */
  function FuzzyAttempt(s: Services): seq<string> -> Option<TitleRecord> {
    chunks => BestTitleMatch(s, Concat(chunks))
  }

  /** The third stage's loop over `titleChunks`. */
  function FuzzyStage(s: Services, chunks: seq<string>): Option<TitleRecord> {
    Shorten(FuzzyAttempt(s), chunks)
  }

  // ---------------------------------------------------------------- getTitleFromTMDB

  predicate IsTvOrMovie(c: Candidate) {
    c.mediaType == "tv" || c.mediaType == "movie"
  }

  /** `results.filter((r) => r.media_type === "tv" || r.media_type === "movie")`. */
  function Kinds(results: seq<Candidate>): (r: seq<Candidate>)
    ensures forall i | 0 <= i < |r| :: IsTvOrMovie(r[i]) && r[i] in results
    ensures forall c | c in results && IsTvOrMovie(c) :: c in r
    decreases |results|
  {
    if |results| == 0 then []
    else
      var rest := Kinds(results[1..]);
      assert forall c | c in results[1..] :: c in results;
      assert results == [results[0]] + results[1..];
      if IsTvOrMovie(results[0]) then [results[0]] + rest else rest
  }

  /** One search: `(search(term)?.results || [])`, tv and movie results, at most 10. */
  function TopCandidates(s: Services, term: string): (r: seq<Candidate>)
    ensures |r| <= 10 && forall i | 0 <= i < |r| :: IsTvOrMovie(r[i])
  {
    Take(Kinds(s.search(term).GetOr([])), 10)
  }

  /** The search term of the remaining chunks. */
  function SearchTerm(chunks: seq<string>): string {
    Helpers.RemoveNonAlphaNumeric(Concat(chunks))
  }

  /** A try of the search loop: it hits when the search finds any tv or movie result. */
  function SearchAttempt(s: Services): seq<string> -> Option<seq<Candidate>> {
    chunks => var top := TopCandidates(s, SearchTerm(chunks)); if |top| > 0 then Some(top) else None
  }

  /** The search loop: `topCandidates` when it ends. */
  function SearchStage(s: Services, chunks: seq<string>): (r: seq<Candidate>)
    ensures |r| <= 10 && forall i | 0 <= i < |r| :: IsTvOrMovie(r[i])
  {
    var hit := Shorten(SearchAttempt(s), chunks);
    if hit.Some? then
      SearchHit(s, chunks);
      hit.value
    else []
  }

  /** A hit of the search loop is the top list of one of its searches. */
  lemma SearchHit(s: Services, chunks: seq<string>)
    requires Shorten(SearchAttempt(s), chunks).Some?
    ensures var v := Shorten(SearchAttempt(s), chunks).value;
      |v| <= 10 && forall i | 0 <= i < |v| :: IsTvOrMovie(v[i])
  {
    ShortenHit(SearchAttempt(s), chunks);
    var j :| 0 < j <= |chunks| && Shorten(SearchAttempt(s), chunks) == SearchAttempt(s)(chunks[..j]);
  }

  /** `(a, b) => b.popularity - a.popularity`: most popular first. */
  function PopularityKey(c: Candidate): real {
    -c.popularity
  }

  /** The watch-provider call for a candidate's kind. */
  function ProvidersOf(s: Services, c: Candidate): Option<WatchProviders> {
    if c.mediaType == "tv" then s.tvProviders(c.id) else s.movieProviders(c.id)
  }

  /** `popularity * 100 + vote_count * 2 + isAvailableOnNetflix * 100`; with numbers
      present no `|| 0` changes a term. */
  function Score(c: Candidate, onNetflix: bool): real {
    c.popularity * 100.0 + (c.voteCount * 2) as real + (if onNetflix then 100.0 else 0.0)
  }

  function CandidateScore(s: Services, c: Candidate): real {
    Score(c, Helpers.AvailableOnNetflix(ProvidersOf(s, c)))
  }

  /** `highestScore` and `highestTitle` after the first `n` candidates; `None` stands
      for the initial `{}`. */
  function Choose(s: Services, cands: seq<Candidate>, n: nat): (real, Option<Candidate>)
    requires n <= |cands|
  {
    if n == 0 then (0.0, None)
    else
      var (highest, choice) := Choose(s, cands, n - 1);
      var score := CandidateScore(s, cands[n - 1]);
      if score > highest then (score, Some(cands[n - 1])) else (highest, choice)
  }

  /** The chosen candidate is the first of those with the highest score, and that score
      is positive; nothing is chosen exactly when no score is positive. */
  lemma {:induction false} ChooseIsFirstMax(s: Services, cands: seq<Candidate>, n: nat) returns (i: int)
    requires n <= |cands|
    ensures var (highest, choice) := Choose(s, cands, n);
      -1 <= i < n && (i == -1 <==> choice.None?) &&
      (choice.None? ==> highest == 0.0 && forall j | 0 <= j < n :: CandidateScore(s, cands[j]) <= 0.0) &&
      (choice.Some? ==>
        choice.value == cands[i] && highest == CandidateScore(s, cands[i]) && highest > 0.0 &&
        (forall j | 0 <= j < n :: CandidateScore(s, cands[j]) <= highest) &&
        (forall j | 0 <= j < i :: CandidateScore(s, cands[j]) < highest))
    decreases n
  {
    if n == 0 {
      i := -1;
    } else {
      var k := ChooseIsFirstMax(s, cands, n - 1);
      var (highest, choice) := Choose(s, cands, n - 1);
      if CandidateScore(s, cands[n - 1]) > highest {
        i := n - 1;
      } else {
        i := k;
      }
    }
  }

  /** `highestTitle` at the end of the scoring loop over the candidates sorted by
      popularity. */
  function Pick(s: Services, top: seq<Candidate>): Option<Candidate> {
    var sorted := SortBy(top, PopularityKey);
    Choose(s, sorted, |sorted|).1
  }

  /** The details call for the chosen candidate, with its `media_type`. */
  function DetailsOf(s: Services, c: Candidate): Option<Match> {
    var details := if c.mediaType == "movie" then s.movieDetails(c.id) else s.tvDetails(c.id);
    match details
    case None => None
    case Some(d) => Some(Match(d, c.mediaType))
  }

  /** `getTitleFromTMDB(title)`. With no choice the source still asks for the details
      of `{}`, which has no id; that call is taken to fail. */
  function LiveMatch(s: Services, title: string): Option<Match> {
    match Pick(s, SearchStage(s, Split(Trim(title), ':')))
    case None => None
    case Some(c) => DetailsOf(s, c)
  }

  /** The pick is a candidate whose score is the highest and positive. */
  lemma PickIsBest(s: Services, top: seq<Candidate>) returns (c: Candidate)
    requires Pick(s, top).Some?
    ensures Pick(s, top) == Some(c) && c in top && CandidateScore(s, c) > 0.0
    ensures forall x | x in top :: CandidateScore(s, x) <= CandidateScore(s, c)
  {
    var sorted := SortBy(top, PopularityKey);
    var i := ChooseIsFirstMax(s, sorted, |sorted|);
    c := sorted[i];
    assert c in multiset(sorted);
    forall x | x in top ensures CandidateScore(s, x) <= CandidateScore(s, c) {
      assert x in multiset(top);
      var j :| 0 <= j < |sorted| && sorted[j] == x;
    }
  }

  /** A live match is the details of a tv or movie candidate of the search whose
      score is the highest and positive. */
  lemma LiveMatchIsBest(s: Services, title: string) returns (c: Candidate)
    requires LiveMatch(s, title).Some?
    ensures var top := SearchStage(s, Split(Trim(title), ':'));
      c in top && IsTvOrMovie(c) && CandidateScore(s, c) > 0.0 &&
      (forall x | x in top :: CandidateScore(s, x) <= CandidateScore(s, c)) &&
      LiveMatch(s, title).value.mediaType == c.mediaType &&
      Some(LiveMatch(s, title).value.details) == (if c.mediaType == "movie" then s.movieDetails(c.id) else s.tvDetails(c.id))
  {
    var top := SearchStage(s, Split(Trim(title), ':'));
    c := PickIsBest(s, top);
  }

  /** `getTitleFromTMDB(normalizedTitle)`. */
  method GetTitleFromTMDB(s: Services, normalizedTitle: string) returns (result: Option<Match>)
    ensures result == LiveMatch(s, normalizedTitle)
  {
    var topCandidates := SearchCandidates(s, Split(Trim(normalizedTitle), ':'));
    var highestTitle := PickCandidate(s, topCandidates);
    match highestTitle
    case None =>
      result := None;
    case Some(topChoice) =>
      result := DetailsOf(s, topChoice);
  }

  /** The search loop of `getTitleFromTMDB`. */
  method SearchCandidates(s: Services, chunks: seq<string>) returns (topCandidates: seq<Candidate>)
    ensures topCandidates == SearchStage(s, chunks)
  {
    topCandidates := [];
    var titleChunks := chunks;
    while |titleChunks| > 0
      invariant SearchStage(s, titleChunks) == SearchStage(s, chunks)
      invariant topCandidates == []
      decreases |titleChunks|
    {
      var searchTerm := Helpers.RemoveNonAlphaNumeric(Concat(titleChunks));
      var results := s.search(searchTerm).GetOr([]);
      topCandidates := Take(Kinds(results), 10);
      if |topCandidates| > 0 {
        assert SearchAttempt(s)(titleChunks) == Some(topCandidates);
        return;
      }
      assert SearchAttempt(s)(titleChunks).None?;
      titleChunks := DropLast(titleChunks);
    }
  }

  /** The scoring loop of `getTitleFromTMDB`: a candidate replaces the choice only
      with a strictly higher score. */
  method PickCandidate(s: Services, topCandidates: seq<Candidate>) returns (highestTitle: Option<Candidate>)
    ensures highestTitle == Pick(s, topCandidates)
  {
    var sortedByPopularity := SortBy(topCandidates, PopularityKey);
    var highestScore: real := 0.0;
    highestTitle := None;
    for i := 0 to |sortedByPopularity|
      invariant (highestScore, highestTitle) == Choose(s, sortedByPopularity, i)
    {
      var title := sortedByPopularity[i];
      var onNetflix := Helpers.IsAvailableOnNetflix(ProvidersOf(s, title));
      var score := Score(title, onNetflix);
      if score > highestScore {
        highestScore := score;
        highestTitle := Some(title);
      }
    }
  }

  /** The record `getData` builds from a live match: a show keeps its episode data, a
      movie its run time and release date, and `|| null` turns empty strings and zeros
      into `null`. */
  function LiveRecord(m: Match): (r: TitleRecord)
    ensures r.mediaType == 0 <==> m.mediaType == "tv"
    ensures r.genres == m.details.genres && r.tmdbId == IntOrNull(m.details.id) && r.posterPath == StrOrNull(m.details.posterPath)
    ensures m.mediaType == "tv" ==>
      r.normalizedTitle == StrOrNull(m.details.name) && r.runtime.None? && r.releaseDate.None? &&
      r.episodeRunTime == Some(Helpers.GetEpisodeRunTime(m.details))
    ensures m.mediaType != "tv" ==>
      r.normalizedTitle == StrOrNull(m.details.title) && r.episodeRunTime.None? && r.numberOfEpisodes.None? &&
      r.firstAirDate.None? && r.runtime == IntOrNull(m.details.runtime)
    ensures KeyOf(r) != ""
  {
    var d := m.details;
    if m.mediaType == "tv" then
      TitleRecord(StrOrNull(d.name), StrOrNull(d.originalName), IntOrNull(d.id), 0, d.genres, None,
                  IntOrNull(d.numberOfEpisodes), Some(Helpers.GetEpisodeRunTime(d)), None,
                  StrOrNull(d.firstAirDate), StrOrNull(d.posterPath))
    else
      TitleRecord(StrOrNull(d.title), StrOrNull(d.originalTitle), IntOrNull(d.id), 1, d.genres,
                  IntOrNull(d.runtime), None, None, StrOrNull(d.releaseDate), None, StrOrNull(d.posterPath))
  }

  /** What `getData(title)` returns: the first stage that finds a record wins, in the
      order exact cache, variant cache, fuzzy match (only for a title with `:`, and
      without its last chunk), live search. */
  function Resolve(s: Services, title: string): Option<TitleRecord> {
    var exact := CachedResult(s, title);
    if exact.Some? then exact
    else
      var variant := CachedResult(s, VariantTerm(title));
      if variant.Some? then variant
      else
        var fuzzy := if ':' in title then FuzzyStage(s, DropLast(Split(Trim(title), ':'))) else None;
        if fuzzy.Some? then fuzzy
        else
          match LiveMatch(s, title)
          case Some(m) => Some(LiveRecord(m))
          case None => None
  }

  /** The stages of `getData(normalizedTitle)`, each tried only when the ones before
      it found nothing. */
  method LookUpTitle(s: Services, normalizedTitle: string) returns (result: Option<TitleRecord>)
    ensures result == Resolve(s, normalizedTitle)
  {
    result := CachedResult(s, normalizedTitle);
    if result.Some? {
      return;
    }

    var searchTerm := VariantTerm(normalizedTitle);
    result := CachedResult(s, searchTerm);
    if result.Some? {
      return;
    }

    if Find(normalizedTitle, ':') > -1 {
      var titleChunks := Split(Trim(normalizedTitle), ':');
      titleChunks := DropLast(titleChunks);
      result := FuzzyMatch(s, titleChunks);
      if result.Some? {
        return;
      }
    }

    var m := GetTitleFromTMDB(s, normalizedTitle);
    if m.Some? {
      result := Some(LiveRecord(m.value));
    } else {
      result := None;
    }
  }

  /** The fuzzy loop of `getData`. */
  method FuzzyMatch(s: Services, chunks: seq<string>) returns (result: Option<TitleRecord>)
    ensures result == FuzzyStage(s, chunks)
  {
    result := None;
    var titleChunks := chunks;
    while |titleChunks| > 0
      invariant FuzzyStage(s, titleChunks) == FuzzyStage(s, chunks)
      invariant result.None?
      decreases |titleChunks|
    {
      result := BestTitleMatch(s, Concat(titleChunks));
      assert FuzzyAttempt(s)(titleChunks) == result;
      if result.Some? {
        return;
      }
      titleChunks := DropLast(titleChunks);
    }
  }

  /** A title stays unresolved exactly when every stage fails: no cached row under
      either key, no fuzzy hit for any shortened chunk list, and no live match. */
  lemma ResolveMisses(s: Services, title: string)
    ensures Resolve(s, title).None? <==>
      CachedResult(s, title).None? && CachedResult(s, VariantTerm(title)).None? &&
      (':' in title ==> var chunks := DropLast(Split(Trim(title), ':'));
         forall j | 0 < j <= |chunks| :: BestTitleMatch(s, Concat(chunks[..j])).None?) &&
      LiveMatch(s, title).None?
  {
    if ':' in title {
      var chunks := DropLast(Split(Trim(title), ':'));
      var k := ShortenFirstHit(FuzzyAttempt(s), chunks);
      if k > 0 {
        assert BestTitleMatch(s, Concat(chunks[..k])).Some?;
      }
    }
  }

  /** An exact cache hit ignores letter case and decides the result. */
  lemma ExactHitWins(s: Services, a: string, b: string)
    requires Lower(a) == Lower(b) && Lower(a) in s.cache
    ensures Resolve(s, a) == Resolve(s, b) == Some(s.cache[Lower(a)])
  {
  }

  /** A fuzzy hit is a row the similarity match rated above 0.9. */
  lemma FuzzyKey(s: Services, chunks: seq<string>)
    requires FuzzyStage(s, chunks).Some?
    requires forall t | s.similar(t).0 > 0.9 :: s.similar(t).1.normalizedTitle != Some("")
    ensures FuzzyStage(s, chunks).value.normalizedTitle != Some("")
  {
    var k := ShortenFirstHit(FuzzyAttempt(s), chunks);
    assert s.similar(Concat(chunks[..k])).0 > 0.9;
  }

  /** `getData`'s record is never keyed by "" when no cached row and no row the
      similarity match can return has the title "". */
  lemma ResolvedKey(s: Services, title: string)
    requires Resolve(s, title).Some?
    requires forall k | k in s.cache :: s.cache[k].normalizedTitle != Some("")
    requires forall t | s.similar(t).0 > 0.9 :: s.similar(t).1.normalizedTitle != Some("")
    ensures KeyOf(Resolve(s, title).value) != ""
  {
    var exact := CachedResult(s, title);
    var variant := CachedResult(s, VariantTerm(title));
    if exact.Some? {
      KeyOfNotBlank(exact.value);
    } else if variant.Some? {
      KeyOfNotBlank(variant.value);
    } else {
      var fuzzy := if ':' in title then FuzzyStage(s, DropLast(Split(Trim(title), ':'))) else None;
      if fuzzy.Some? {
        FuzzyKey(s, DropLast(Split(Trim(title), ':')));
        KeyOfNotBlank(fuzzy.value);
      } else {
        assert Resolve(s, title) == Some(LiveRecord(LiveMatch(s, title).value));
      }
    }
  }

  /** A record is keyed by "" only when its title is "". */
  lemma KeyOfNotBlank(r: TitleRecord)
    requires r.normalizedTitle != Some("")
    ensures KeyOf(r) != ""
  {
  }

  // ---------------------------------------------------------------- the resolve/merge loop

  /** `getData` as a function of the raw title. The merge below is stated for any such
      resolver. */
  function Resolver(s: Services): string -> Option<TitleRecord> {
    title => Resolve(s, title)
  }

  /** `resolve` answers as `getData` does. The trigger keeps the quantifier from
      unfolding `Resolve` wherever `resolve` is applied. */
  ghost predicate Agrees(s: Services, resolve: string -> Option<TitleRecord>) {
    forall title {:trigger Resolve(s, title)} :: resolve(title) == Resolve(s, title)
  }

  /** `getData` has such a resolver. */
  lemma ResolverAgrees(s: Services)
    ensures Agrees(s, Resolver(s))
    ensures exists resolve :: Agrees(s, resolve)
  {
    assert Agrees(s, Resolver(s));
  }

  /** `title` resolves to a record whose key is `k`. */
  predicate ResolvesTo(resolve: string -> Option<TitleRecord>, title: string, k: string) {
    resolve(title).Some? && KeyOf(resolve(title).value) == k
  }

  /** `tempTitleToDateFreq` after the first `n` raw titles of `d`, in key order. */
  function MergeAll(resolve: string -> Option<TitleRecord>, d: Dict<string, Entry>, n: nat): (r: Dict<string, Entry>)
    requires IndexValid(d) && n <= |d.keys|
    ensures IndexValid(r)
  {
    if n == 0 then Empty()
    else
      var prev := MergeAll(resolve, d, n - 1);
      var title := d.keys[n - 1];
      match resolve(title)
      case None => prev
      case Some(rec) => Helpers.Absorb(d, title, Helpers.WithSlot(prev, KeyOf(rec)), KeyOf(rec))
  }

  /** The watches of the first `n` raw titles that resolve to `k`. */
  function FreqTo(resolve: string -> Option<TitleRecord>, d: Dict<string, Entry>, n: nat, k: string): int
    requires d.Valid() && n <= |d.keys|
  {
    if n == 0 then 0
    else FreqTo(resolve, d, n - 1, k) + (if ResolvesTo(resolve, d.keys[n - 1], k) then d.vals[d.keys[n - 1]].titleFrequency else 0)
  }

  /** Their dates, raw title by raw title. */
  function DatesTo(resolve: string -> Option<TitleRecord>, d: Dict<string, Entry>, n: nat, k: string): seq<WatchDate>
    requires d.Valid() && n <= |d.keys|
  {
    if n == 0 then []
    else DatesTo(resolve, d, n - 1, k) + (if ResolvesTo(resolve, d.keys[n - 1], k) then d.vals[d.keys[n - 1]].datesWatched else [])
  }

  /** Some of the first `n` raw titles resolves to `k`. */
  predicate SomeResolvesTo(resolve: string -> Option<TitleRecord>, keys: seq<string>, n: nat, k: string)
    requires n <= |keys|
  {
    n > 0 && (SomeResolvesTo(resolve, keys, n - 1, k) || ResolvesTo(resolve, keys[n - 1], k))
  }

  lemma {:induction false} SomeResolvesToExists(resolve: string -> Option<TitleRecord>, keys: seq<string>, n: nat, k: string)
    requires n <= |keys|
    ensures SomeResolvesTo(resolve, keys, n, k) <==> exists j | 0 <= j < n :: ResolvesTo(resolve, keys[j], k)
  {
    if n > 0 {
      SomeResolvesToExists(resolve, keys, n - 1, k);
      if ResolvesTo(resolve, keys[n - 1], k) {
        assert 0 <= n - 1 < n && ResolvesTo(resolve, keys[n - 1], k);
      } else if exists j | 0 <= j < n :: ResolvesTo(resolve, keys[j], k) {
        var j :| 0 <= j < n && ResolvesTo(resolve, keys[j], k);
        assert j < n - 1;
      }
    }
  }

  lemma {:induction false} MergeKeysRec(resolve: string -> Option<TitleRecord>, d: Dict<string, Entry>, n: nat, k: string)
    requires IndexValid(d) && n <= |d.keys|
    ensures k in MergeAll(resolve, d, n).vals <==> SomeResolvesTo(resolve, d.keys, n, k)
  {
    if n > 0 {
      MergeKeysRec(resolve, d, n - 1, k);
      MergeStep(resolve, d, n, k);
    }
  }

  /** After the merge a canonical key is present exactly when some raw title resolved
      to it. */
  lemma MergeKeys(resolve: string -> Option<TitleRecord>, d: Dict<string, Entry>, n: nat, k: string)
    requires IndexValid(d) && n <= |d.keys|
    ensures k in MergeAll(resolve, d, n).vals <==> exists j | 0 <= j < n :: ResolvesTo(resolve, d.keys[j], k)
  {
    MergeKeysRec(resolve, d, n, k);
    SomeResolvesToExists(resolve, d.keys, n, k);
  }

  /** A merged entry's frequency is the sum of those of the raw titles that resolved
      to its key, and its dates are theirs concatenated in key order. */
  lemma {:induction false} MergeEntry(resolve: string -> Option<TitleRecord>, d: Dict<string, Entry>, n: nat, k: string)
    requires IndexValid(d) && n <= |d.keys|
    ensures k in MergeAll(resolve, d, n).vals ==>
      MergeAll(resolve, d, n).vals[k] == Entry(DatesTo(resolve, d, n, k), FreqTo(resolve, d, n, k))
    decreases n
  {
    if n > 0 {
      MergeEntry(resolve, d, n - 1, k);
      MergeStep(resolve, d, n, k);
      NothingMergedYet(resolve, d, n - 1, k);
      MergeEntryStep(resolve, d, n, k, MergeAll(resolve, d, n - 1), MergeAll(resolve, d, n));
    }
  }

  /** A key the first `n` raw titles did not merge has gathered no dates and no
      watches. */
  lemma NothingMergedYet(resolve: string -> Option<TitleRecord>, d: Dict<string, Entry>, n: nat, k: string)
    requires IndexValid(d) && n <= |d.keys|
    ensures k !in MergeAll(resolve, d, n).vals ==> FreqTo(resolve, d, n, k) == 0 && DatesTo(resolve, d, n, k) == []
  {
    MergeKeysRec(resolve, d, n, k);
    if !SomeResolvesTo(resolve, d.keys, n, k) {
      NothingResolvedYet(resolve, d, n, k);
    }
  }

  lemma MergeEntryStep(resolve: string -> Option<TitleRecord>, d: Dict<string, Entry>, n: nat, k: string,
                       prev: Dict<string, Entry>, cur: Dict<string, Entry>)
    requires d.Valid() && 0 < n <= |d.keys|
    requires k in prev.vals ==> prev.vals[k] == Entry(DatesTo(resolve, d, n - 1, k), FreqTo(resolve, d, n - 1, k))
    requires k !in prev.vals ==> FreqTo(resolve, d, n - 1, k) == 0 && DatesTo(resolve, d, n - 1, k) == []
    requires var title := d.keys[n - 1];
      title in d.vals &&
      (ResolvesTo(resolve, title, k) ==>
        k in cur.vals &&
        cur.vals[k] == Entry((if k in prev.vals then prev.vals[k].datesWatched else []) + d.vals[title].datesWatched,
                             (if k in prev.vals then prev.vals[k].titleFrequency else 0) + d.vals[title].titleFrequency)) &&
      (!ResolvesTo(resolve, title, k) ==> (k in cur.vals <==> k in prev.vals) && (k in prev.vals ==> cur.vals[k] == prev.vals[k]))
    ensures k in cur.vals ==> cur.vals[k] == Entry(DatesTo(resolve, d, n, k), FreqTo(resolve, d, n, k))
  {
    var title := d.keys[n - 1];
    if ResolvesTo(resolve, title, k) {
      assert [] + d.vals[title].datesWatched == d.vals[title].datesWatched;
    }
  }

  /** What one more raw title does to the entry under `k`. */
  lemma MergeStep(resolve: string -> Option<TitleRecord>, d: Dict<string, Entry>, n: nat, k: string)
    requires IndexValid(d) && 0 < n <= |d.keys|
    ensures var prev := MergeAll(resolve, d, n - 1);
      var cur := MergeAll(resolve, d, n);
      var title := d.keys[n - 1];
      title in d.vals &&
      (ResolvesTo(resolve, title, k) ==>
        k in cur.vals &&
        cur.vals[k] == Entry((if k in prev.vals then prev.vals[k].datesWatched else []) + d.vals[title].datesWatched,
                             (if k in prev.vals then prev.vals[k].titleFrequency else 0) + d.vals[title].titleFrequency)) &&
      (!ResolvesTo(resolve, title, k) ==> (k in cur.vals <==> k in prev.vals) && (k in prev.vals ==> cur.vals[k] == prev.vals[k]))
  {
    var title := d.keys[n - 1];
    assert title in d.vals;
  }

  /** No raw title resolved to `k` yet: nothing gathered for it. */
  lemma {:induction false} NothingResolvedYet(resolve: string -> Option<TitleRecord>, d: Dict<string, Entry>, n: nat, k: string)
    requires d.Valid() && n <= |d.keys|
    requires !SomeResolvesTo(resolve, d.keys, n, k)
    ensures FreqTo(resolve, d, n, k) == 0 && DatesTo(resolve, d, n, k) == []
    decreases n
  {
    if n > 0 {
      NothingResolvedYet(resolve, d, n - 1, k);
    }
  }

  /** The watches of the first `n` raw titles that resolve at all. */
  function ResolvedTotal(resolve: string -> Option<TitleRecord>, d: Dict<string, Entry>, n: nat): int
    requires d.Valid() && n <= |d.keys|
  {
    if n == 0 then 0
    else ResolvedTotal(resolve, d, n - 1) + (if resolve(d.keys[n - 1]).Some? then d.vals[d.keys[n - 1]].titleFrequency else 0)
  }

  /** The merge loses and invents no watch: the merged total is that of the raw titles
      that resolve. */
  lemma {:induction false} MergeTotal(resolve: string -> Option<TitleRecord>, d: Dict<string, Entry>, n: nat)
    requires IndexValid(d) && n <= |d.keys|
    ensures TotalFrequency(MergeAll(resolve, d, n)) == ResolvedTotal(resolve, d, n)
    decreases n
  {
    if n > 0 {
      MergeTotal(resolve, d, n - 1);
      var title := d.keys[n - 1];
      match resolve(title)
      case None =>
      case Some(rec) =>
        Helpers.AbsorbTotal(d, title, MergeAll(resolve, d, n - 1), KeyOf(rec));
    }
  }

  /** When every raw title resolves, the merged index holds as many watches as the
      raw one. */
  lemma MergeKeepsEveryWatch(resolve: string -> Option<TitleRecord>, d: Dict<string, Entry>)
    requires IndexValid(d)
    requires forall j | 0 <= j < |d.keys| :: resolve(d.keys[j]).Some?
    ensures TotalFrequency(MergeAll(resolve, d, |d.keys|)) == TotalFrequency(d)
  {
    MergeTotal(resolve, d, |d.keys|);
    ResolvedTotalIsSum(resolve, d, |d.keys|);
    assert d.keys[..|d.keys|] == d.keys;
  }

  lemma {:induction false} ResolvedTotalIsSum(resolve: string -> Option<TitleRecord>, d: Dict<string, Entry>, n: nat)
    requires d.Valid() && n <= |d.keys|
    requires forall j | 0 <= j < n :: resolve(d.keys[j]).Some?
    ensures ResolvedTotal(resolve, d, n) == SumOver(d.keys[..n], d.vals, Frequency)
    decreases n
  {
    if n > 0 {
      ResolvedTotalIsSum(resolve, d, n - 1);
      assert d.keys[..n] == d.keys[..n - 1] + [d.keys[n - 1]];
      SumOverAppend(d.keys[..n - 1], d.keys[n - 1], d.vals, Frequency);
    }
  }

  /** `missedTitles` after the first `n` raw titles, starting from `missed0`. */
  function MissedAfter(resolve: string -> Option<TitleRecord>, keys: seq<string>, n: nat, missed0: seq<string>): seq<string>
    requires n <= |keys|
  {
    if n == 0 then missed0
    else MissedAfter(resolve, keys, n - 1, missed0) + (if resolve(keys[n - 1]).None? then [keys[n - 1]] else [])
  }

  /** The missed titles grow by exactly the unresolved ones. */
  lemma {:induction false} MissedAfterUnresolved(resolve: string -> Option<TitleRecord>, keys: seq<string>, n: nat, missed0: seq<string>)
    requires n <= |keys|
    ensures MissedAfter(resolve, keys, n, missed0) == missed0 + Unresolved(resolve, keys, n)
  {
    if n > 0 {
      MissedAfterUnresolved(resolve, keys, n - 1, missed0);
    }
  }

  /** The raw titles `getData` could not resolve, in key order: the ones it logs as
      missed. */
  function Unresolved(resolve: string -> Option<TitleRecord>, keys: seq<string>, n: nat): seq<string>
    requires n <= |keys|
  {
    if n == 0 then []
    else Unresolved(resolve, keys, n - 1) + (if resolve(keys[n - 1]).None? then [keys[n - 1]] else [])
  }

  /** How many of the first `n` raw titles resolve: the `currRow` of the `end`
      handler's loop. */
  function ResolvedCount(resolve: string -> Option<TitleRecord>, keys: seq<string>, n: nat): nat
    requires n <= |keys|
  {
    if n == 0 then 0
    else ResolvedCount(resolve, keys, n - 1) + (if resolve(keys[n - 1]).Some? then 1 else 0)
  }

  /** Every raw title is either counted as resolved or logged as missed, never both. */
  lemma {:induction false} ResolvedPlusUnresolved(resolve: string -> Option<TitleRecord>, keys: seq<string>, n: nat)
    requires n <= |keys|
    ensures ResolvedCount(resolve, keys, n) + |Unresolved(resolve, keys, n)| == n
    ensures ResolvedCount(resolve, keys, n) == 0 <==> forall j | 0 <= j < n :: resolve(keys[j]).None?
  {
    if n > 0 {
      ResolvedPlusUnresolved(resolve, keys, n - 1);
    }
  }

  /** The progress the `end` handler's loop leaves once `resolved` of `total` raw
      titles have resolved: `printProgress` runs only after a resolved title, so
      with none the progress is as it was. */
  function ProgressAfter(p0: ProgressState, resolved: nat, total: int): (p: ProgressState)
    ensures resolved > 0 ==> p.current == resolved && p.total == total
    ensures resolved == 0 ==> p == p0
  {
    if resolved == 0 then p0 else ProgressState(resolved, total)
  }

  /** `titleToData` after the first `n` raw titles, starting from `data0`: each
      resolved record is stored under its key, a later one replacing an earlier. */
  function DataAfter(resolve: string -> Option<TitleRecord>, keys: seq<string>, n: nat,
                     data0: map<string, TitleRecord>): map<string, TitleRecord>
    requires n <= |keys|
  {
    if n == 0 then data0
    else
      var prev := DataAfter(resolve, keys, n - 1, data0);
      match resolve(keys[n - 1])
      case None => prev
      case Some(rec) => prev[KeyOf(rec) := rec]
  }

  /** A key has a record after the first `n` raw titles exactly when it had one
      before or one of them resolved to it; such a key holds the answer for the last
      raw title that resolved to it, and any other key keeps its old record. */
  lemma {:induction false} DataAfterRecord(resolve: string -> Option<TitleRecord>, keys: seq<string>, n: nat,
                                           data0: map<string, TitleRecord>, k: string)
    requires n <= |keys|
    ensures k in DataAfter(resolve, keys, n, data0) <==> k in data0 || SomeResolvesTo(resolve, keys, n, k)
    ensures SomeResolvesTo(resolve, keys, n, k) ==>
      exists j | 0 <= j < n ::
        ResolvesTo(resolve, keys[j], k) && DataAfter(resolve, keys, n, data0)[k] == resolve(keys[j]).value &&
        forall j2 | j < j2 < n :: !ResolvesTo(resolve, keys[j2], k)
    ensures !SomeResolvesTo(resolve, keys, n, k) && k in data0 ==> DataAfter(resolve, keys, n, data0)[k] == data0[k]
  {
    if n > 0 {
      DataAfterRecord(resolve, keys, n - 1, data0, k);
      if ResolvesTo(resolve, keys[n - 1], k) {
        assert DataAfter(resolve, keys, n, data0)[k] == resolve(keys[n - 1]).value;
      } else if SomeResolvesTo(resolve, keys, n - 1, k) {
        var j :| 0 <= j < n - 1 &&
          ResolvesTo(resolve, keys[j], k) && DataAfter(resolve, keys, n - 1, data0)[k] == resolve(keys[j]).value &&
          forall j2 | j < j2 < n - 1 :: !ResolvesTo(resolve, keys[j2], k);
        assert DataAfter(resolve, keys, n, data0)[k] == resolve(keys[j]).value;
      }
    }
  }

  /** Every merged key has a record whose key it is, and that record is what
      `getData` answered for a raw title merged under it. */
  lemma MergedRecords(resolve: string -> Option<TitleRecord>, d: Dict<string, Entry>, data0: map<string, TitleRecord>)
    requires IndexValid(d)
    ensures var data := DataAfter(resolve, d.keys, |d.keys|, data0);
      data0.Keys <= data.Keys &&
      forall k | k in MergeAll(resolve, d, |d.keys|).vals ::
        k in data && KeyOf(data[k]) == k && exists j | 0 <= j < |d.keys| :: resolve(d.keys[j]) == Some(data[k])
  {
    var data := DataAfter(resolve, d.keys, |d.keys|, data0);
    forall k | k in data0
      ensures k in data
    {
      DataAfterRecord(resolve, d.keys, |d.keys|, data0, k);
    }
    forall k | k in MergeAll(resolve, d, |d.keys|).vals
      ensures k in data && KeyOf(data[k]) == k && exists j | 0 <= j < |d.keys| :: resolve(d.keys[j]) == Some(data[k])
    {
      MergeKeysRec(resolve, d, |d.keys|, k);
      DataAfterRecord(resolve, d.keys, |d.keys|, data0, k);
    }
  }

  /** `getData(normalizedTitle)`; a title no stage resolves is logged as missed. */
  method GetData(s: Services, ghost resolve: string -> Option<TitleRecord>, normalizedTitle: string, stats: UserStats)
    returns (result: Option<TitleRecord>)
    requires (stats.Valid() && Agrees(s, resolve)) == true
    modifies stats`missedCount, stats`missedTitles
    ensures stats.Valid() == true
    ensures result == resolve(normalizedTitle)
    ensures stats.missedTitles == old(stats.missedTitles) + (if result.None? then [normalizedTitle] else [])
  {
    result := LookUpTitle(s, normalizedTitle);
    if result.None? {
      stats.LogMissedTitles(normalizedTitle);
    }
  }

  /** What the `end` handler's loop has built once it has handled the first `i` raw
      titles of `d`: the merged index, the missed titles after `missed0`, and the
      records after `data0`. */
  ghost predicate MergeInv(resolve: string -> Option<TitleRecord>, d: Dict<string, Entry>, i: nat,
                           merged: Dict<string, Entry>, titleToData: map<string, TitleRecord>, missed: seq<string>,
                           data0: map<string, TitleRecord>, missed0: seq<string>)
  {
    IndexValid(d) && i <= |d.keys| && IndexValid(merged) && merged == MergeAll(resolve, d, i) &&
    missed == MissedAfter(resolve, d.keys, i, missed0) &&
    titleToData == DataAfter(resolve, d.keys, i, data0)
  }

  /** One pass of the `end` handler's loop once `getData` has answered `result` for
      the `i`-th raw title: a `null` answer skips the title; otherwise its entry is
      merged into `temp`, its record stored under its key and the progress advanced. */
  method MergeResult(ghost resolve: string -> Option<TitleRecord>, currDict: ViewingIndex, i: nat, temp: ViewingIndex,
                     titleToData: map<string, TitleRecord>, result: Option<TitleRecord>, currRow: int, total: int, progress: ProgressCell,
                     ghost missed: seq<string>, ghost data0: map<string, TitleRecord>, ghost missed0: seq<string>)
    returns (nextData: map<string, TitleRecord>, nextRow: int)
    requires (currDict.Valid() && temp.Valid() && temp != currDict && i < |currDict.entries.keys| &&
              result == resolve(currDict.entries.keys[i]) &&
              MergeInv(resolve, currDict.entries, i, temp.entries, titleToData, missed, data0, missed0)) == true
    modifies temp, progress
    ensures temp.Valid()
    ensures MergeInv(resolve, currDict.entries, i + 1, temp.entries, nextData,
                     missed + (if result.None? then [currDict.entries.keys[i]] else []), data0, missed0) == true
    ensures result.None? ==> nextRow == currRow && progress.state == old(progress.state)
    ensures result.Some? ==> nextRow == currRow + 1 && progress.state == ProgressState(nextRow, total)
  {
    nextData, nextRow := titleToData, currRow;
    var title := currDict.entries.keys[i];
    if result.None? {
      return;
    }
    var newTitle := KeyOf(result.value);
    var merged := Helpers.UpdateTitleToDateFreq(title, newTitle, currDict, temp);
    nextData := titleToData[newTitle := result.value];
    nextRow := currRow + 1;
    progress.UpdateProgress(nextRow, total);
  }

  /** The loop's state after the first `i` raw titles of `d`, with the objects it
      updates: `stats` and `temp` stay well formed and hold what `MergeInv` says. */
  ghost predicate Merging(resolve: string -> Option<TitleRecord>, d: Dict<string, Entry>, i: nat, temp: ViewingIndex,
                          stats: UserStats, titleToData: map<string, TitleRecord>, data0: map<string, TitleRecord>, missed0: seq<string>)
    reads temp, stats
  {
    stats.Valid() && temp.Valid() && MergeInv(resolve, d, i, temp.entries, titleToData, stats.missedTitles, data0, missed0)
  }

  /** What the loop leaves once every raw title is handled. */
  lemma MergedState(resolve: string -> Option<TitleRecord>, d: Dict<string, Entry>, temp: ViewingIndex, stats: UserStats,
                    titleToData: map<string, TitleRecord>, data0: map<string, TitleRecord>, missed0: seq<string>)
    requires Merging(resolve, d, |d.keys|, temp, stats, titleToData, data0, missed0)
    ensures stats.Valid() && temp.Valid()
    ensures temp.entries == MergeAll(resolve, d, |d.keys|)
    ensures stats.missedTitles == missed0 + Unresolved(resolve, d.keys, |d.keys|)
    ensures titleToData == DataAfter(resolve, d.keys, |d.keys|, data0)
    ensures data0.Keys <= titleToData.Keys
    ensures forall k | k in temp.entries.vals ::
      k in titleToData && KeyOf(titleToData[k]) == k && exists j | 0 <= j < |d.keys| :: resolve(d.keys[j]) == Some(titleToData[k])
  {
    MissedAfterUnresolved(resolve, d.keys, |d.keys|, missed0);
    MergedRecords(resolve, d, data0);
  }

  /** One whole pass of the `end` handler's loop: `getData` of the `i`-th raw title,
      then the merge of its answer. */
  method MergeNext(s: Services, ghost resolve: string -> Option<TitleRecord>, currDict: ViewingIndex, i: nat, temp: ViewingIndex,
                   titleToData: map<string, TitleRecord>, currRow: int, stats: UserStats, progress: ProgressCell,
                   ghost data0: map<string, TitleRecord>, ghost missed0: seq<string>, ghost p0: ProgressState)
    returns (nextData: map<string, TitleRecord>, nextRow: int)
    requires (Agrees(s, resolve) && currDict.Valid() && temp != currDict && i < |currDict.entries.keys| &&
              Merging(resolve, currDict.entries, i, temp, stats, titleToData, data0, missed0)) == true
    modifies stats`missedCount, stats`missedTitles, temp, progress
    ensures Merging(resolve, currDict.entries, i + 1, temp, stats, nextData, data0, missed0) == true
    ensures nextRow == currRow + (if resolve(currDict.entries.keys[i]).Some? then 1 else 0)
    ensures resolve(currDict.entries.keys[i]).None? ==> progress.state == old(progress.state)
    ensures resolve(currDict.entries.keys[i]).Some? ==> progress.state == ProgressState(nextRow, |currDict.entries.keys|)
    ensures Counting(resolve, currDict.entries.keys, i, currRow, old(progress.state), p0) ==>
      Counting(resolve, currDict.entries.keys, i + 1, nextRow, progress.state, p0)
  {
    ghost var missed := stats.missedTitles;
    var result := GetData(s, resolve, currDict.entries.keys[i], stats);
    nextData, nextRow := MergeResult(resolve, currDict, i, temp, titleToData, result, currRow, |currDict.entries.keys|, progress,
                                     missed, data0, missed0);
  }

  /** The counter and the progress after the first `i` raw titles, from progress
      `p0`. */
  predicate Counting(resolve: string -> Option<TitleRecord>, keys: seq<string>, i: nat, currRow: int,
                     state: ProgressState, p0: ProgressState)
  {
    i <= |keys| && currRow == ResolvedCount(resolve, keys, i) && state == ProgressAfter(p0, ResolvedCount(resolve, keys, i), |keys|)
  }

  /** The loop of the `end` handler: every raw title of `currDict`, in key order, is
      looked up, logged in `stats` when missed, and otherwise merged into `temp` with
      its record stored in the returned `titleToData`. */
  method MergeTitles(s: Services, ghost resolve: string -> Option<TitleRecord>, currDict: ViewingIndex, temp: ViewingIndex,
                     data0: map<string, TitleRecord>, stats: UserStats, progress: ProgressCell)
    returns (titleToData: map<string, TitleRecord>)
    requires (Agrees(s, resolve) && currDict.Valid() && stats.Valid() &&
              temp.Valid() && temp.entries == Empty() && temp != currDict) == true
    modifies stats`missedCount, stats`missedTitles, temp, progress
    ensures Merging(resolve, currDict.entries, |currDict.entries.keys|, temp, stats, titleToData, data0, old(stats.missedTitles)) == true
    ensures progress.state ==
      ProgressAfter(old(progress.state), ResolvedCount(resolve, currDict.entries.keys, |currDict.entries.keys|), |currDict.entries.keys|)
  {
    ghost var d := currDict.entries;
    ghost var missed0 := stats.missedTitles;
    ghost var p0 := progress.state;
    titleToData := data0;
    var currRow := 0;
    for i := 0 to |currDict.entries.keys|
      invariant Merging(resolve, d, i, temp, stats, titleToData, data0, missed0) == true
      invariant Counting(resolve, d.keys, i, currRow, progress.state, p0) == true
    {
      titleToData, currRow := MergeNext(s, resolve, currDict, i, temp, titleToData, currRow, stats, progress, data0, missed0, p0);
    }
  }

  /** The `end` handler on the raw index `currDict`: a new index gets every raw title
      merged under its canonical key, and `data0` grows by each resolved record. */
  method EndHandler(s: Services, ghost resolve: string -> Option<TitleRecord>, currDict: ViewingIndex,
                    data0: map<string, TitleRecord>, stats: UserStats, progress: ProgressCell)
    returns (merged: ViewingIndex, titleToData: map<string, TitleRecord>)
    requires (Agrees(s, resolve) && currDict.Valid() && stats.Valid()) == true
    modifies stats`missedCount, stats`missedTitles, progress
    ensures fresh(merged) && merged.Valid() && stats.Valid()
    ensures merged.entries == MergeAll(resolve, currDict.entries, |currDict.entries.keys|)
    ensures stats.missedTitles == old(stats.missedTitles) + Unresolved(resolve, currDict.entries.keys, |currDict.entries.keys|)
    ensures titleToData == DataAfter(resolve, currDict.entries.keys, |currDict.entries.keys|, data0)
    ensures data0.Keys <= titleToData.Keys
    ensures forall k | k in merged.entries.vals :: k in titleToData && KeyOf(titleToData[k]) == k
    ensures progress.state ==
      ProgressAfter(old(progress.state), ResolvedCount(resolve, currDict.entries.keys, |currDict.entries.keys|), |currDict.entries.keys|)
  {
    merged := new ViewingIndex();
    titleToData := MergeTitles(s, resolve, currDict, merged, data0, stats, progress);
    MergedState(resolve, currDict.entries, merged, stats, titleToData, data0, old(stats.missedTitles));
  }

  // ---------------------------------------------------------------- logUserStats

  /** `result?.runtime || result?.episode_run_time || 45`: 0 and `null` fall through. */
  function Runtime(r: TitleRecord): (minutes: int)
    ensures minutes != 0
    ensures IntOrNull(r.runtime).Some? ==> minutes == r.runtime.value
    ensures IntOrNull(r.runtime).None? && IntOrNull(r.episodeRunTime).Some? ==> minutes == r.episodeRunTime.value
    ensures IntOrNull(r.runtime).None? && IntOrNull(r.episodeRunTime).None? ==> minutes == 45
  {
    if IntOrNull(r.runtime).Some? then r.runtime.value
    else if IntOrNull(r.episodeRunTime).Some? then r.episodeRunTime.value
    else 45
  }

  /** A live show is charged its episode run time, a live movie its run time, and
      either 45 minutes when that is missing or 0. */
  lemma LiveRuntime(m: Match)
    ensures m.mediaType == "tv" ==>
      Runtime(LiveRecord(m)) == (if Helpers.GetEpisodeRunTime(m.details) != 0 then Helpers.GetEpisodeRunTime(m.details) else 45)
    ensures m.mediaType != "tv" ==>
      Runtime(LiveRecord(m)) == (if IntOrNull(m.details.runtime).Some? then m.details.runtime.value else 45)
  {
  }

  /** Every title with watch time has its record. */
  predicate WatchTimeKnown(stats: UserStats, titleToData: map<string, TitleRecord>)
    reads stats`watchTimeByTitle
  {
    forall k | k in stats.watchTimeByTitle.vals :: k in titleToData
  }

  /** `genres` once the record's genres are counted; a record without genres leaves
      it as it was. */
  function GenresAfter(g: Dict<string, int>, result: TitleRecord): (r: Dict<string, int>)
    requires g.Valid()
    ensures r.Valid()
  {
    if result.genres.Some? then CountGenres(g, result.genres.value) else g
  }

  /** `showsCompleted` once `logNumShowsCompleted` has judged a show watched `freq`
      times: one more name and a count that still matches; a movie, or a show watched
      fewer times than it has episodes, leaves it as it was. */
  function CompletedAfter(sc: seq<Cell>, result: TitleRecord, freq: int, title: string): (r: seq<Cell>)
    requires |sc| > 0
    ensures CompletedValid(sc) ==> CompletedValid(r)
    ensures r == sc || (|r| == |sc| + 1 && r[|sc|] == Name(title))
  {
    if result.mediaType == 0 && freq >= result.numberOfEpisodes.GetOr(0) then [Count(|sc|)] + sc[1..] + [Name(title)]
    else sc
  }

  /** `showsCompleted` under the intended test: a show completes only against a known
      episode count. A show without one is never completed; with one, the test is the
      test as written. */
  function CompletedAfterIntended(sc: seq<Cell>, result: TitleRecord, freq: int, title: string): (r: seq<Cell>)
    requires |sc| > 0
    ensures CompletedValid(sc) ==> CompletedValid(r)
    ensures result.numberOfEpisodes.None? ==> r == sc
    ensures r != sc ==>
      result.mediaType == 0 && result.numberOfEpisodes.Some? && freq >= result.numberOfEpisodes.value &&
      |r| == |sc| + 1 && r[|sc|] == Name(title)
    ensures result.numberOfEpisodes.Some? ==> r == CompletedAfter(sc, result, freq, title)
  {
    if result.mediaType == 0 && CompletedIntended(freq, result.numberOfEpisodes) then CompletedAfter(sc, result, freq, title)
    else sc
  }

  /** The oldest-title slot `show` picks (the show slot or the movie slot) once the
      title is offered to the slot of its kind; the other slot is left as it was. */
  function SlotAfter(slot: Oldest, show: bool, result: TitleRecord, title: string, posterPath: Option<string>,
                     parseDate: string -> Option<int>): Oldest
  {
    if (result.mediaType == 0) == show then
      NextOldest(slot, title, posterPath, NewDate(StrOr(result.releaseDate, result.firstAirDate), parseDate))
    else slot
  }

  /** `logTopGenres`, `logUniqueTitlesWatched`, `logUniqueShowsAndMovies` and
      `logWatchTime` on the statistics `st`, for a title charged `timeWatched`
      minutes: its genres counted, one more title, one more show or movie, and the
      minutes added to its entry and to the total. Nothing else changes. */
  function TallyLogged(st: Stats, titleToData: map<string, TitleRecord>, result: TitleRecord, title: string,
                       timeWatched: int): (r: Stats)
    requires StatsValid(st) && title in titleToData
    requires forall k | k in st.watchTimeByTitle.vals :: k in titleToData
    ensures StatsValid(r) && r.total == st.total + 1 && r.tvShows + r.movies == st.tvShows + st.movies + 1
    ensures r.totalWatchTime == st.totalWatchTime + timeWatched
    ensures title in r.watchTimeByTitle.vals && forall k | k in r.watchTimeByTitle.vals :: k in titleToData
    ensures r.(genres := st.genres, total := st.total, tvShows := st.tvShows, movies := st.movies,
               totalWatchTime := st.totalWatchTime, watchTimeByTitle := st.watchTimeByTitle) == st
  {
    var entry := WatchEntry(st.watchTimeByTitle, title, result.mediaType, timeWatched, titleToData);
    PutSum(st.watchTimeByTitle, title, entry, Minutes);
    st.(genres := GenresAfter(st.genres, result),
        total := st.total + 1,
        tvShows := st.tvShows + (if result.mediaType == 0 then 1 else 0),
        movies := st.movies + (if result.mediaType == 0 then 0 else 1),
        totalWatchTime := st.totalWatchTime + timeWatched,
        watchTimeByTitle := st.watchTimeByTitle.Put(title, entry))
  }

  /** `logTopWatchedTitles` and `logMostWatchedTitle` on the statistics `st`: the top
      five and the most watched titles ranked afresh. Nothing else changes. */
  function RankLogged(st: Stats, titleToData: map<string, TitleRecord>): (r: Stats)
    requires StatsValid(st) && |st.watchTimeByTitle.keys| > 0
    requires forall k | k in st.watchTimeByTitle.vals :: k in titleToData
    ensures StatsValid(r)
    ensures r.(topWatchedTitles := st.topWatchedTitles, mostWatchedTitle := st.mostWatchedTitle) == st
  {
    st.(topWatchedTitles := Take(ByMinutes(st.watchTimeByTitle), 5),
        mostWatchedTitle := MostWatchedOf(st.watchTimeByTitle, titleToData))
  }

  /** What `logUserStats` makes of the statistics `st` up to the binge record. */
  function CountsLogged(st: Stats, titleToData: map<string, TitleRecord>, result: TitleRecord, title: string,
                        timeWatched: int): (r: Stats)
    requires StatsValid(st) && title in titleToData
    requires forall k | k in st.watchTimeByTitle.vals :: k in titleToData
    ensures StatsValid(r) && forall k | k in r.watchTimeByTitle.vals :: k in titleToData
    ensures r.topGenres == st.topGenres && r.mostBingedShow == st.mostBingedShow && r.showsCompleted == st.showsCompleted
    ensures r.oldestWatchedShow == st.oldestWatchedShow && r.oldestWatchedMovie == st.oldestWatchedMovie
    ensures r.missedCount == st.missedCount && r.missedTitles == st.missedTitles
  {
    var tallied := TallyLogged(st, titleToData, result, title, timeWatched);
    assert title in tallied.watchTimeByTitle.vals;
    RankLogged(tallied, titleToData)
  }

  /** `logNumShowsCompleted` (for a show) and `logOldestWatchedShowAndMovie` on the
      statistics `st`: the show may count as completed, and the title is offered to
      the oldest slot of its kind. Nothing else changes. */
  function CompletedLogged(st: Stats, sorted: Dict<string, Entry>, titleToData: map<string, TitleRecord>,
                           result: TitleRecord, title: string, parseDate: string -> Option<int>): (r: Stats)
    requires StatsValid(st) && title in sorted.vals && title in titleToData
    ensures StatsValid(r)
    ensures r.(showsCompleted := st.showsCompleted, oldestWatchedShow := st.oldestWatchedShow,
               oldestWatchedMovie := st.oldestWatchedMovie) == st
  {
    var posterPath := titleToData[title].posterPath;
    st.(showsCompleted := CompletedAfter(st.showsCompleted, result, sorted.vals[title].titleFrequency, title),
        oldestWatchedShow := SlotAfter(st.oldestWatchedShow, true, result, title, posterPath, parseDate),
        oldestWatchedMovie := SlotAfter(st.oldestWatchedMovie, false, result, title, posterPath, parseDate))
  }

  /** What `logUserStats` makes of the statistics `st` from the binge record on, over
      the sorted index: when the binge record's title has data, the record is stored
      and the completed shows and oldest titles follow; when it has none,
      `logMostBingedShow` throws and nothing changes. */
  function AgeLogged(st: Stats, sorted: Dict<string, Entry>, titleToData: map<string, TitleRecord>, result: TitleRecord,
                     title: string, parseDate: string -> Option<int>): (r: Stats)
    requires StatsValid(st) && IndexValid(sorted) && title in sorted.vals && title in titleToData
    ensures StatsValid(r)
    ensures MostBinged(sorted).title !in titleToData ==> r == st
    ensures r.(mostBingedShow := st.mostBingedShow, showsCompleted := st.showsCompleted,
               oldestWatchedShow := st.oldestWatchedShow, oldestWatchedMovie := st.oldestWatchedMovie) == st
  {
    var b := MostBinged(sorted);
    if b.title !in titleToData then st
    else
      CompletedLogged(st.(mostBingedShow := BingeRecord(b.title, titleToData[b.title].posterPath, b.streak, b.dates)),
                      sorted, titleToData, result, title, parseDate)
  }

  /** `logUserStats(result, title)` as a function of the statistics `st` and the
      viewing index `d` before the call: the counts and rankings, then the binge
      record and what follows it over the sorted index. The title is charged its run
      time once per watch. */
  function StatsLogged(st: Stats, d: Dict<string, Entry>, titleToData: map<string, TitleRecord>, result: TitleRecord,
                       title: string, parseDate: string -> Option<int>): Stats
    requires StatsValid(st) && IndexValid(d) && title in d.vals && title in titleToData
    requires forall k | k in st.watchTimeByTitle.vals :: k in titleToData
  {
    var counted := CountsLogged(st, titleToData, result, title, Runtime(result) * d.vals[title].titleFrequency);
    AgeLogged(counted, SortedIndex(d), titleToData, result, title, parseDate)
  }

  /** One call of `logUserStats` keeps the statistics well formed and every watched
      title resolved, counts one more title as one more show or movie, adds the
      title's run time once per watch to its entry and to the total, and leaves the
      genre ranking and the missed titles alone. */
  lemma StatsLoggedCounts(st: Stats, d: Dict<string, Entry>, titleToData: map<string, TitleRecord>, result: TitleRecord,
                          title: string, parseDate: string -> Option<int>)
    requires StatsValid(st) && IndexValid(d) && title in d.vals && title in titleToData
    requires forall k | k in st.watchTimeByTitle.vals :: k in titleToData
    ensures var r := StatsLogged(st, d, titleToData, result, title, parseDate);
      var timeWatched := Runtime(result) * |d.vals[title].datesWatched|;
      StatsValid(r) && (forall k | k in r.watchTimeByTitle.vals :: k in titleToData) &&
      r.total == st.total + 1 && (st.total == st.tvShows + st.movies ==> r.total == r.tvShows + r.movies) &&
      (if result.mediaType == 0 then r.tvShows == st.tvShows + 1 && r.movies == st.movies
       else r.movies == st.movies + 1 && r.tvShows == st.tvShows) &&
      r.totalWatchTime == st.totalWatchTime + timeWatched &&
      r.watchTimeByTitle == st.watchTimeByTitle.Put(title, WatchEntry(st.watchTimeByTitle, title, result.mediaType, timeWatched, titleToData)) &&
      r.genres == GenresAfter(st.genres, result) &&
      r.topGenres == st.topGenres && r.missedTitles == st.missedTitles && r.missedCount == st.missedCount
  {
    assert d.vals[title].titleFrequency == |d.vals[title].datesWatched|;
  }

  /** Every title with watch time in `st` has its record. */
  predicate WatchedResolved(st: Stats, titleToData: map<string, TitleRecord>) {
    forall k | k in st.watchTimeByTitle.vals :: k in titleToData
  }

  /** The part of `StatsLoggedCounts` that a sequence of calls relies on: the
      statistics stay well formed with every watched title resolved, and one more
      title is counted. */
  lemma StatsLoggedValid(st: Stats, d: Dict<string, Entry>, titleToData: map<string, TitleRecord>, result: TitleRecord,
                         title: string, parseDate: string -> Option<int>)
    requires StatsValid(st) && IndexValid(d) && title in d.vals && title in titleToData
    requires forall k | k in st.watchTimeByTitle.vals :: k in titleToData
    ensures var r := StatsLogged(st, d, titleToData, result, title, parseDate);
      StatsValid(r) && WatchedResolved(r, titleToData) &&
      r.total == st.total + 1 && (st.total == st.tvShows + st.movies ==> r.total == r.tvShows + r.movies) &&
      r.topGenres == st.topGenres
  {
    StatsLoggedCounts(st, d, titleToData, result, title, parseDate);
  }

  /** After the call the top five titles are the five with most minutes, in order,
      and the most watched title has as many minutes as any. */
  lemma StatsLoggedRankings(st: Stats, d: Dict<string, Entry>, titleToData: map<string, TitleRecord>, result: TitleRecord,
                            title: string, parseDate: string -> Option<int>)
    requires StatsValid(st) && IndexValid(d) && title in d.vals && title in titleToData
    requires forall k | k in st.watchTimeByTitle.vals :: k in titleToData
    ensures var r := StatsLogged(st, d, titleToData, result, title, parseDate);
      var w := r.watchTimeByTitle;
      |r.topWatchedTitles| == (if |w.keys| < 5 then |w.keys| else 5) &&
      (forall i | 0 <= i < |r.topWatchedTitles| :: r.topWatchedTitles[i].0 in w.vals && w.vals[r.topWatchedTitles[i].0] == r.topWatchedTitles[i].1) &&
      (forall i, j | 0 <= i < j < |r.topWatchedTitles| :: r.topWatchedTitles[i].1.minutes >= r.topWatchedTitles[j].1.minutes) &&
      r.mostWatchedTitle.title in w.vals && forall k | k in w.vals :: w.vals[k].minutes <= r.mostWatchedTitle.minutes
  {
    var counted := CountsLogged(st, titleToData, result, title, Runtime(result) * d.vals[title].titleFrequency);
    TopWatchedAreTop(counted.watchTimeByTitle);
    MostWatchedOfIsFirstMax(counted.watchTimeByTitle, titleToData);
  }

  /** When the binge record's title has data, the call stores it with that title's
      poster, completes a show watched at least its episode count (a missing count
      compares as 0), and offers the title to the oldest slot of its kind; when it
      has none, the call throws after the rankings and the four leave it untouched. */
  lemma StatsLoggedBinge(st: Stats, d: Dict<string, Entry>, titleToData: map<string, TitleRecord>, result: TitleRecord,
                         title: string, parseDate: string -> Option<int>)
    requires StatsValid(st) && IndexValid(d) && title in d.vals && title in titleToData
    requires forall k | k in st.watchTimeByTitle.vals :: k in titleToData
    ensures var r := StatsLogged(st, d, titleToData, result, title, parseDate);
      var b := MostBinged(SortedIndex(d));
      var freq := |d.vals[title].datesWatched|;
      var date := NewDate(StrOr(result.releaseDate, result.firstAirDate), parseDate);
      var posterPath := titleToData[title].posterPath;
      if b.title in titleToData then
        r.mostBingedShow == BingeRecord(b.title, titleToData[b.title].posterPath, b.streak, b.dates) &&
        (result.mediaType == 0 && freq >= result.numberOfEpisodes.GetOr(0) ==>
           r.showsCompleted == [Count(|st.showsCompleted|)] + st.showsCompleted[1..] + [Name(title)]) &&
        (result.mediaType != 0 || freq < result.numberOfEpisodes.GetOr(0) ==> r.showsCompleted == st.showsCompleted) &&
        (result.mediaType == 0 ==>
           r.oldestWatchedShow == NextOldest(st.oldestWatchedShow, title, posterPath, date) &&
           r.oldestWatchedMovie == st.oldestWatchedMovie) &&
        (result.mediaType != 0 ==>
           r.oldestWatchedMovie == NextOldest(st.oldestWatchedMovie, title, posterPath, date) &&
           r.oldestWatchedShow == st.oldestWatchedShow)
      else
        r.mostBingedShow == st.mostBingedShow && r.showsCompleted == st.showsCompleted &&
        r.oldestWatchedShow == st.oldestWatchedShow && r.oldestWatchedMovie == st.oldestWatchedMovie
  {
    var counted := CountsLogged(st, titleToData, result, title, Runtime(result) * d.vals[title].titleFrequency);
    var sorted := SortedIndex(d);
    assert sorted.vals[title].titleFrequency == |d.vals[title].datesWatched|;
    var b := MostBinged(sorted);
    if b.title in titleToData {
      var stored := counted.(mostBingedShow := BingeRecord(b.title, titleToData[b.title].posterPath, b.streak, b.dates));
      assert StatsLogged(st, d, titleToData, result, title, parseDate) ==
        CompletedLogged(stored, sorted, titleToData, result, title, parseDate);
    }
  }

  /** Sorting the index first changes nothing `logUserStats` computes: the
      frequencies stay and sorting twice is sorting once. */
  lemma StatsLoggedSorted(st: Stats, d: Dict<string, Entry>, titleToData: map<string, TitleRecord>, result: TitleRecord,
                          title: string, parseDate: string -> Option<int>)
    requires StatsValid(st) && IndexValid(d) && title in d.vals && title in titleToData
    requires forall k | k in st.watchTimeByTitle.vals :: k in titleToData
    ensures title in SortedIndex(d).vals
    ensures StatsLogged(st, SortedIndex(d), titleToData, result, title, parseDate) ==
            StatsLogged(st, d, titleToData, result, title, parseDate)
  {
    SortedIndexIdempotent(d);
    assert SortedIndex(d).vals[title].titleFrequency == d.vals[title].titleFrequency;
  }

  /** One pass of `main`'s loop as a step of a fold: `logUserStats` of `title` over
      the index `d`, made total by leaving the statistics alone where its
      precondition fails, which `StatsAfterLoggable` shows never happens along the
      loop. */
  function LogStep(st: Stats, d: Dict<string, Entry>, titleToData: map<string, TitleRecord>, title: string,
                   parseDate: string -> Option<int>): Stats
  {
    if StatsValid(st) && IndexValid(d) && title in d.vals && title in titleToData && WatchedResolved(st, titleToData)
    then StatsLogged(st, d, titleToData, titleToData[title], title, parseDate)
    else st
  }

  /** The statistics once `main`'s loop has logged the first `n` titles of the index
      `d0`, in key order, starting from `st`. Every call after the first reads the
      index the first one sorted, which by `StatsLoggedSorted` computes the same, so
      each step is over `d0`. */
  function StatsAfter(st: Stats, d0: Dict<string, Entry>, titleToData: map<string, TitleRecord>, n: nat,
                      parseDate: string -> Option<int>): Stats
    requires n <= |d0.keys|
  {
    if n == 0 then st
    else LogStep(StatsAfter(st, d0, titleToData, n - 1, parseDate), d0, titleToData, d0.keys[n - 1], parseDate)
  }

  /** Along the loop every step is `logUserStats` itself: the statistics stay well
      formed with every watched title resolved, each step is `StatsLogged` of the
      next title, and `n` more titles are counted. */
  lemma {:induction false} StatsAfterLoggable(st: Stats, d0: Dict<string, Entry>, titleToData: map<string, TitleRecord>,
                                              n: nat, parseDate: string -> Option<int>)
    requires StatsValid(st) && IndexValid(d0) && n <= |d0.keys|
    requires (forall k | k in d0.vals :: k in titleToData) && WatchedResolved(st, titleToData)
    ensures var r := StatsAfter(st, d0, titleToData, n, parseDate);
      StatsValid(r) && WatchedResolved(r, titleToData) && r.total == st.total + n &&
      (st.total == st.tvShows + st.movies ==> r.total == r.tvShows + r.movies) && r.topGenres == st.topGenres
    ensures n > 0 ==>
      d0.keys[n - 1] in d0.vals &&
      StatsAfter(st, d0, titleToData, n, parseDate) ==
      StatsLogged(StatsAfter(st, d0, titleToData, n - 1, parseDate), d0, titleToData, titleToData[d0.keys[n - 1]],
                  d0.keys[n - 1], parseDate)
  {
    if n > 0 {
      StatsAfterLoggable(st, d0, titleToData, n - 1, parseDate);
      var prev := StatsAfter(st, d0, titleToData, n - 1, parseDate);
      var title := d0.keys[n - 1];
      assert title in d0.vals;
      StatsLoggedValid(prev, d0, titleToData, titleToData[title], title, parseDate);
    }
  }

  /** One more pass of `main`'s loop, over the index as it or the first call left it,
      extends the fold by one title. */
  lemma StatsAfterStep(st: Stats, d0: Dict<string, Entry>, titleToData: map<string, TitleRecord>, i: nat,
                       parseDate: string -> Option<int>, prev: Stats, index: Dict<string, Entry>)
    requires (StatsValid(st) && IndexValid(d0) && i < |d0.keys| &&
              (forall k | k in d0.vals :: k in titleToData) && WatchedResolved(st, titleToData) &&
              prev == StatsAfter(st, d0, titleToData, i, parseDate) &&
              (index == d0 || index == SortedIndex(d0))) == true
    ensures (d0.keys[i] in index.vals && IndexValid(index) && StatsValid(prev) && WatchedResolved(prev, titleToData)) == true
    ensures StatsLogged(prev, index, titleToData, titleToData[d0.keys[i]], d0.keys[i], parseDate) ==
            StatsAfter(st, d0, titleToData, i + 1, parseDate)
  {
    StatsAfterLoggable(st, d0, titleToData, i, parseDate);
    StatsAfterLoggable(st, d0, titleToData, i + 1, parseDate);
    var title := d0.keys[i];
    StatsLoggedSorted(prev, d0, titleToData, titleToData[title], title, parseDate);
  }

  /** `main`'s loop has logged the first `i` titles of the index `d0`, starting from
      the statistics `st0`: the index is `d0`, sorted once any title is logged, and
      the statistics `snap` are the fold `StatsAfter`. */
  ghost predicate LoggedUpTo(snap: Stats, entries: Dict<string, Entry>, st0: Stats, d0: Dict<string, Entry>,
                             titleToData: map<string, TitleRecord>, i: nat, parseDate: string -> Option<int>)
  {
    StatsValid(st0) && IndexValid(d0) && i <= |d0.keys| &&
    (forall k | k in d0.vals :: k in titleToData) &&
    WatchedResolved(st0, titleToData) &&
    entries == (if i == 0 then d0 else SortedIndex(d0)) &&
    snap == StatsAfter(st0, d0, titleToData, i, parseDate)
  }

  /** The next title of `main`'s loop is indexed and has its record. */
  lemma LoggedNextTitle(snap: Stats, entries: Dict<string, Entry>, st0: Stats, d0: Dict<string, Entry>,
                        titleToData: map<string, TitleRecord>, i: nat, parseDate: string -> Option<int>)
    requires (LoggedUpTo(snap, entries, st0, d0, titleToData, i, parseDate) && i < |d0.keys|) == true
    ensures (IndexValid(entries) && i < |entries.keys| && entries.keys[i] == d0.keys[i] &&
             entries.keys[i] in entries.vals && entries.keys[i] in titleToData) == true
    ensures SortedIndex(entries) == SortedIndex(d0)
  {
    assert d0.keys[i] in d0.vals;
    SortedIndexIdempotent(d0);
  }

  /** Logging the next title of the index, as `logUserStats` computes it, extends the
      fold by one title and leaves the index sorted. */
  lemma LoggedNext(snap: Stats, entries: Dict<string, Entry>, st0: Stats, d0: Dict<string, Entry>,
                   titleToData: map<string, TitleRecord>, i: nat, parseDate: string -> Option<int>)
    requires (LoggedUpTo(snap, entries, st0, d0, titleToData, i, parseDate) && i < |d0.keys|) == true
    ensures (IndexValid(entries) && i < |entries.keys| && entries.keys[i] in entries.vals &&
             entries.keys[i] in titleToData && StatsValid(snap) && WatchedResolved(snap, titleToData)) == true
    ensures (var title := entries.keys[i];
             LoggedUpTo(StatsLogged(snap, entries, titleToData, titleToData[title], title, parseDate), SortedIndex(entries),
                        st0, d0, titleToData, i + 1, parseDate)) == true
  {
    LoggedNextTitle(snap, entries, st0, d0, titleToData, i, parseDate);
    StatsAfterStep(st0, d0, titleToData, i, parseDate, snap, entries);
  }

  /** The first updates of `logUserStats`: genres, the title, show and movie counts,
      and the title's watch time. */
  method LogCounts(stats: UserStats, titleToData: map<string, TitleRecord>, result: TitleRecord, title: string, timeWatched: int)
    requires (stats.Valid() && WatchTimeKnown(stats, titleToData) && title in titleToData) == true
    modifies stats`genres, stats`total, stats`tvShows, stats`movies, stats`totalWatchTime, stats`watchTimeByTitle
    ensures stats.Valid() && WatchTimeKnown(stats, titleToData)
    ensures stats.Snapshot() == TallyLogged(old(stats.Snapshot()), titleToData, result, title, timeWatched)
  {
    LogGenresAndTitle(stats, result);
    LogKindAndTime(stats, titleToData, result, title, timeWatched);
  }

  /** `logTopGenres` (when the record has genres) and `logUniqueTitlesWatched`. */
  method LogGenresAndTitle(stats: UserStats, result: TitleRecord)
    requires stats.Valid()
    modifies stats`genres, stats`total
    ensures stats.Valid()
    ensures var st := old(stats.Snapshot());
      stats.Snapshot() == st.(genres := GenresAfter(st.genres, result), total := st.total + 1)
  {
    if result.genres.Some? {
      stats.LogTopGenres(result.genres.value);
    }
    stats.LogUniqueTitlesWatched();
  }

  /** `logUniqueShowsAndMovies` and `logWatchTime`. */
  method LogKindAndTime(stats: UserStats, titleToData: map<string, TitleRecord>, result: TitleRecord, title: string,
                        timeWatched: int)
    requires (stats.Valid() && WatchTimeKnown(stats, titleToData) && title in titleToData) == true
    modifies stats`tvShows, stats`movies, stats`totalWatchTime, stats`watchTimeByTitle
    ensures stats.Valid() && WatchTimeKnown(stats, titleToData)
    ensures var st := old(stats.Snapshot());
      stats.Snapshot() ==
        st.(tvShows := st.tvShows + (if result.mediaType == 0 then 1 else 0),
            movies := st.movies + (if result.mediaType == 0 then 0 else 1),
            totalWatchTime := st.totalWatchTime + timeWatched,
            watchTimeByTitle := st.watchTimeByTitle.Put(title, WatchEntry(st.watchTimeByTitle, title, result.mediaType, timeWatched, titleToData)))
  {
    stats.LogUniqueShowsAndMovies(result.mediaType);
    stats.LogWatchTime(title, result.mediaType, timeWatched, titleToData);
    assert title in stats.watchTimeByTitle.vals;
  }

  /** The ranking updates of `logUserStats`: the top five titles by watch time and
      the most watched one. */
  method LogTopTitles(stats: UserStats, titleToData: map<string, TitleRecord>)
    requires (stats.Valid() && WatchTimeKnown(stats, titleToData) && |stats.watchTimeByTitle.keys| > 0) == true
    modifies stats`topWatchedTitles, stats`mostWatchedTitle
    ensures stats.Valid()
    ensures stats.Snapshot() == RankLogged(old(stats.Snapshot()), titleToData)
  {
    ghost var st := stats.Snapshot();
    stats.LogTopWatchedTitles();
    assert stats.Snapshot() == st.(topWatchedTitles := Take(ByMinutes(st.watchTimeByTitle), 5));
    stats.LogMostWatchedTitle(titleToData);
  }

  /** The updates of `logUserStats` up to the binge record. */
  method LogCountsAndRankings(stats: UserStats, titleToData: map<string, TitleRecord>, result: TitleRecord, title: string,
                              timeWatched: int)
    requires (stats.Valid() && WatchTimeKnown(stats, titleToData) && title in titleToData) == true
    modifies stats`genres, stats`total, stats`tvShows, stats`movies, stats`totalWatchTime, stats`watchTimeByTitle,
             stats`topWatchedTitles, stats`mostWatchedTitle
    ensures stats.Valid() && WatchTimeKnown(stats, titleToData)
    ensures stats.Snapshot() == CountsLogged(old(stats.Snapshot()), titleToData, result, title, timeWatched)
  {
    LogCounts(stats, titleToData, result, title, timeWatched);
    assert title in stats.watchTimeByTitle.vals;
    LogTopTitles(stats, titleToData);
  }

  /** The updates of `logUserStats` after the binge record: a show may count as
      completed, and the title may become the oldest show or movie. */
  method LogCompletedAndOldest(s: Services, stats: UserStats, index: ViewingIndex, titleToData: map<string, TitleRecord>,
                               result: TitleRecord, title: string)
    requires (stats.Valid() && index.Valid() && title in index.entries.vals && title in titleToData) == true
    modifies stats`showsCompleted, stats`oldestWatchedShow, stats`oldestWatchedMovie
    ensures stats.Valid()
    ensures stats.Snapshot() == CompletedLogged(old(stats.Snapshot()), index.entries, titleToData, result, title, s.parseDate)
  {
    if result.mediaType == 0 {
      stats.LogNumShowsCompleted(index, result.numberOfEpisodes, title);
    }
    stats.LogOldestWatchedShowAndMovie(result.mediaType, StrOr(result.releaseDate, result.firstAirDate), title,
                                       titleToData, s.parseDate);
  }

  /** `logMostBingedShow`: every entry's dates are sorted in place, and the record is
      stored when its title has data. */
  method LogBinge(stats: UserStats, index: ViewingIndex, titleToData: map<string, TitleRecord>) returns (ok: bool)
    requires (stats.Valid() && index.Valid()) == true
    modifies stats`mostBingedShow, index
    ensures stats.Valid() && index.Valid()
    ensures index.entries == SortedIndex(old(index.entries))
    ensures var b := MostBinged(index.entries);
      (ok <==> b.title in titleToData) &&
      stats.Snapshot() ==
        if ok then old(stats.Snapshot()).(mostBingedShow := BingeRecord(b.title, titleToData[b.title].posterPath, b.streak, b.dates))
        else old(stats.Snapshot())
  {
    ok := stats.LogMostBingedShow(index, titleToData);
  }

  /** The updates of `logUserStats` from the binge record on: every entry's dates are
      sorted in place, and when the record's title has data, the completed shows and
      the oldest titles follow. */
  method LogBingeAndAge(s: Services, stats: UserStats, index: ViewingIndex, titleToData: map<string, TitleRecord>,
                        result: TitleRecord, title: string) returns (ok: bool)
    requires (stats.Valid() && index.Valid() && title in index.entries.vals && title in titleToData) == true
    modifies stats`mostBingedShow, stats`showsCompleted, stats`oldestWatchedShow, stats`oldestWatchedMovie, index
    ensures stats.Valid() && index.Valid()
    ensures index.entries == SortedIndex(old(index.entries))
    ensures ok <==> MostBinged(index.entries).title in titleToData
    ensures stats.Snapshot() == AgeLogged(old(stats.Snapshot()), index.entries, titleToData, result, title, s.parseDate)
  {
    ok := LogBinge(stats, index, titleToData);
    if ok {
      LogCompletedAndOldest(s, stats, index, titleToData, result, title);
    }
  }

  /** `logUserStats(result, title)` on the statistics `stats`, the index `index` and
      the records `titleToData`. `ok` is false when `logMostBingedShow` throws; the
      updates after it are then skipped. */
  method LogUserStats(s: Services, stats: UserStats, index: ViewingIndex, titleToData: map<string, TitleRecord>,
                      result: TitleRecord, title: string) returns (ok: bool)
    requires (stats.Valid() && index.Valid() && WatchTimeKnown(stats, titleToData) &&
              title in index.entries.vals && title in titleToData) == true
    modifies stats, index
    ensures stats.Valid() && index.Valid() && WatchTimeKnown(stats, titleToData)
    ensures index.entries == SortedIndex(old(index.entries))
    ensures ok <==> MostBinged(index.entries).title in titleToData
    ensures stats.Snapshot() == StatsLogged(old(stats.Snapshot()), old(index.entries), titleToData, result, title, s.parseDate)
    ensures stats.total == old(stats.total) + 1
    ensures old(stats.Counted()) ==> stats.Counted()
  {
    var titleFrequency := Helpers.GetTitleWatchFrequency(index, title);
    var runtime := Runtime(result);
    var timeWatched := runtime * titleFrequency;

    LogCountsAndRankings(stats, titleToData, result, title, timeWatched);
    ok := LogBingeAndAge(s, stats, index, titleToData, result, title);
  }

  /** One pass of `main`'s loop: `logUserStats` of the `i`-th title. */
  method LogNext(s: Services, stats: UserStats, index: ViewingIndex, titleToData: map<string, TitleRecord>,
                 ghost st0: Stats, ghost d0: Dict<string, Entry>, i: nat) returns (ok: bool)
    requires (stats.Valid() && index.Valid() && WatchTimeKnown(stats, titleToData) && i < |d0.keys| &&
              LoggedUpTo(stats.Snapshot(), index.entries, st0, d0, titleToData, i, s.parseDate)) == true
    modifies stats, index
    ensures (stats.Valid() && index.Valid() && WatchTimeKnown(stats, titleToData) &&
             LoggedUpTo(stats.Snapshot(), index.entries, st0, d0, titleToData, i + 1, s.parseDate)) == true
    ensures ok <==> MostBinged(SortedIndex(d0)).title in titleToData
  {
    LoggedNext(stats.Snapshot(), index.entries, st0, d0, titleToData, i, s.parseDate);
    var title := index.entries.keys[i];
    ok := LogUserStats(s, stats, index, titleToData, titleToData[title], title);
  }

  // ---------------------------------------------------------------- module state

  /** The module-level state of `server.js`. */
  class Server {
    var userStats: UserStats
    var titleToDateFreq: ViewingIndex
    var titleToData: map<string, TitleRecord>
    var progress: ProgressCell

    predicate Valid()
      reads this, userStats, titleToDateFreq
    {
      userStats.Valid() && titleToDateFreq.Valid()
    }

    /** Every indexed title has its record. */
    predicate Resolved()
      reads this, titleToDateFreq
    {
      forall k | k in titleToDateFreq.entries.vals :: k in titleToData
    }

    /** Every title with watch time has its record. */
    predicate WatchTimeResolved()
      reads this, userStats
    {
      WatchTimeKnown(userStats, titleToData)
    }

    /** The module's initial state: the `userStats` literal, an empty viewing index
        and record map, and progress 0 of 0. */
    constructor ()
      ensures Valid() && Resolved() && WatchTimeResolved()
      ensures fresh(userStats) && fresh(titleToDateFreq) && fresh(progress)
      ensures userStats.Snapshot() == InitialStats && userStats.Counted()
      ensures titleToDateFreq.entries == Empty() && titleToData == map[] && progress.state == ProgressState(0, 0)
    {
      userStats := new UserStats();
      titleToDateFreq := new ViewingIndex();
      titleToData := map[];
      progress := new ProgressCell();
    }

    /** `resetUserStats()`: a fresh statistics object. */
    method ResetUserStats()
      modifies this
      ensures fresh(userStats) && userStats.Valid() && userStats.Counted() && userStats.Snapshot() == InitialStats
      ensures titleToDateFreq == old(titleToDateFreq) && titleToData == old(titleToData) && progress == old(progress)
    {
      userStats := new UserStats();
    }

    /** The reset route: progress, viewing index, records and statistics start over. */
    method ResetState()
      modifies this, progress
      ensures Valid() && Resolved() && WatchTimeResolved() && userStats.Counted()
      ensures progress == old(progress) && progress.state == ProgressState(0, 0)
      ensures fresh(titleToDateFreq) && titleToDateFreq.entries == Empty() && titleToData == map[]
      ensures fresh(userStats) && userStats.Snapshot() == InitialStats
    {
      progress.ResetProgress();
      titleToDateFreq := new ViewingIndex();
      titleToData := map[];
      ResetUserStats();
    }

    /** The `data` handler: an accepted row adds its date to the entry of its cleaned
        title; any other row changes nothing. */
    method AddRow(row: map<string, string>, parseDate: string -> Option<int>)
      requires Valid()
      modifies titleToDateFreq
      ensures Valid()
      ensures RowAccepted(row) ==>
        titleToDateFreq.entries == WithRow(old(titleToDateFreq.entries), Helpers.EpisodicStripped(row["Title"]), RowDate(row["Date"], parseDate))
      ensures !RowAccepted(row) ==> titleToDateFreq.entries == old(titleToDateFreq.entries)
    {
      var accepted, title := CleanRow(row);
      if accepted {
        var date := RowDate(row["Date"], parseDate);
        RecordWatch(title, date);
      }
    }

    /** The `data` handler over every row, in order. */
    method AddRows(rows: seq<map<string, string>>, parseDate: string -> Option<int>)
      requires Valid()
      modifies titleToDateFreq
      ensures Valid() && titleToDateFreq.entries == IndexRows(old(titleToDateFreq.entries), rows, |rows|, parseDate)
    {
      for i := 0 to |rows|
        invariant (Valid() && titleToDateFreq.entries == IndexRows(old(titleToDateFreq.entries), rows, i, parseDate)) == true
      {
        AddRow(rows[i], parseDate);
      }
    }

    /** `titleToDateFreq[title]` gets one more watch. */
    method RecordWatch(title: string, date: WatchDate)
      requires Valid()
      modifies titleToDateFreq
      ensures Valid() && titleToDateFreq.entries == WithRow(old(titleToDateFreq.entries), title, date)
    {
      titleToDateFreq.AddWatch(title, date);
    }

    /** The `end` handler: every raw title is resolved and merged under its canonical
        key into a new index, which then replaces the raw one; `titleToData` gets each
        resolved record, and progress counts the resolved titles. */
    method ResolveAll(s: Services, ghost resolve: string -> Option<TitleRecord>)
      requires Valid() && Agrees(s, resolve)
      modifies this, userStats`missedCount, userStats`missedTitles, progress
      ensures Valid() && Resolved() && fresh(titleToDateFreq)
      ensures titleToDateFreq.entries == MergeAll(resolve, old(titleToDateFreq.entries), |old(titleToDateFreq.entries.keys)|)
      ensures userStats.missedTitles ==
        old(userStats.missedTitles) + Unresolved(resolve, old(titleToDateFreq.entries.keys), |old(titleToDateFreq.entries.keys)|)
      ensures titleToData == DataAfter(resolve, old(titleToDateFreq.entries.keys), |old(titleToDateFreq.entries.keys)|, old(titleToData))
      ensures old(titleToData).Keys <= titleToData.Keys
      ensures userStats == old(userStats) && progress == old(progress)
      ensures old(WatchTimeResolved()) ==> WatchTimeResolved()
      ensures old(userStats.Counted()) ==> userStats.Counted()
      ensures progress.state == ProgressAfter(old(progress.state),
        ResolvedCount(resolve, old(titleToDateFreq.entries.keys), |old(titleToDateFreq.entries.keys)|), |old(titleToDateFreq.entries.keys)|)
    {
      titleToDateFreq, titleToData := EndHandler(s, resolve, titleToDateFreq, titleToData, userStats, progress);
    }

    /** `main`'s loop after parsing: `logUserStats` for every title in key order. The
        first call sorts every entry's dates, so every call computes the same binge
        record; when its title has no record the first call throws and the loop stops
        after it. */
    method LogAllStats(s: Services) returns (completed: bool)
      requires (Valid() && Resolved() && WatchTimeResolved()) == true
      modifies userStats, titleToDateFreq
      ensures Valid() && WatchTimeResolved()
      ensures completed <==>
        |old(titleToDateFreq.entries.keys)| == 0 || MostBinged(SortedIndex(old(titleToDateFreq.entries))).title in titleToData
      ensures titleToDateFreq.entries ==
        if |old(titleToDateFreq.entries.keys)| == 0 then old(titleToDateFreq.entries) else SortedIndex(old(titleToDateFreq.entries))
      ensures completed ==>
        userStats.Snapshot() == StatsAfter(old(userStats.Snapshot()), old(titleToDateFreq.entries), titleToData,
                                           |old(titleToDateFreq.entries.keys)|, s.parseDate)
      ensures !completed ==>
        |old(titleToDateFreq.entries.keys)| > 0 &&
        userStats.Snapshot() == StatsAfter(old(userStats.Snapshot()), old(titleToDateFreq.entries), titleToData, 1, s.parseDate)
      ensures completed ==> userStats.total == old(userStats.total) + |old(titleToDateFreq.entries.keys)|
      ensures old(userStats.Counted()) ==> userStats.Counted()
      ensures userStats.topGenres == old(userStats.topGenres)
    {
      ghost var d0 := titleToDateFreq.entries;
      ghost var st0 := userStats.Snapshot();
      assert LoggedUpTo(userStats.Snapshot(), titleToDateFreq.entries, st0, d0, titleToData, 0, s.parseDate);
      var n := |titleToDateFreq.entries.keys|;
      for i := 0 to n
        invariant (Valid() && WatchTimeResolved() &&
                   LoggedUpTo(userStats.Snapshot(), titleToDateFreq.entries, st0, d0, titleToData, i, s.parseDate)) == true
        invariant i > 0 ==> MostBinged(SortedIndex(d0)).title in titleToData
      {
        var ok := LogNext(s, userStats, titleToDateFreq, titleToData, st0, d0, i);
        if !ok {
          StatsAfterLoggable(st0, d0, titleToData, 1, s.parseDate);
          return false;
        }
      }
      StatsAfterLoggable(st0, d0, titleToData, n, s.parseDate);
      completed := true;
    }

    /** `printUserStats(userStats)`: the printing is left out; what it stores is the
        top three genres, which `getTopGenres` sets when any genre was counted. */
    method PrintUserStats()
      requires Valid()
      modifies userStats`topGenres
      ensures Valid()
      ensures userStats.Snapshot() ==
        if |userStats.genres.keys| > 0 then old(userStats.Snapshot()).(topGenres := TopGenres(userStats.genres))
        else old(userStats.Snapshot())
    {
      if |userStats.genres.keys| > 0 {
        userStats.GetTopGenres();
      }
    }

    /** The `end` handler followed by `main`'s statistics loop. */
    method EndAndLog(s: Services) returns (completed: bool)
      requires Valid() && WatchTimeResolved()
      modifies this, userStats, progress
      ensures (Valid() && WatchTimeResolved() && userStats == old(userStats)) == true
      ensures old(userStats.Counted()) ==> userStats.Counted()
      ensures userStats.topGenres == old(userStats.topGenres)
    {
      ResolverAgrees(s);
      ghost var resolve :| Agrees(s, resolve);
      ResolveAll(s, resolve);
      completed := LogAllStats(s);
    }

    /** `main(filePath)`: the header check (a bad header ends the process), the row
        handler for every row, the `end` handler, the statistics loop, and, once the
        loop has not thrown, `printUserStats`. */
    method ProcessHistory(s: Services, headers: seq<string>, rows: seq<map<string, string>>) returns (completed: bool)
      requires Valid() && WatchTimeResolved()
      modifies this, userStats, titleToDateFreq, progress
      ensures Valid() && WatchTimeResolved()
      ensures !HeadersValid(headers) ==> !completed
      ensures completed && |userStats.genres.keys| > 0 ==> userStats.topGenres == TopGenres(userStats.genres)
      ensures old(userStats.Counted()) ==> userStats.Counted()
    {
      if !HeadersValid(headers) {
        return false;
      }
      AddRows(rows, s.parseDate);
      completed := EndAndLog(s);
      if completed {
        PrintUserStats();
      }
    }

    /** `main` as written: `helper.enablePrintCapture` is not defined in
        `backend/src/utils/helpers.js`, so once the statistics loop is done the call
        throws a `TypeError` and `printUserStats` never runs. No run of `main`
        completes, and `topGenres` keeps the value it had. */
    method MainAsWritten(s: Services, headers: seq<string>, rows: seq<map<string, string>>) returns (completed: bool)
      requires Valid() && WatchTimeResolved()
      modifies this, userStats, titleToDateFreq, progress
      ensures Valid() && WatchTimeResolved()
      ensures !completed
      ensures userStats.topGenres == old(userStats.topGenres)
    {
      if !HeadersValid(headers) {
        return false;
      }
      AddRows(rows, s.parseDate);
      var logged := EndAndLog(s);
      completed := false;
    }

    /** The reset route as written: `resetProgress()` runs, then
        `helper.resetCapturedOutput`, which `backend/src/utils/helpers.js` does not
        define, throws. The route fails (`ok` is false) with the progress at 0 of 0
        and the viewing index, the records and the statistics as they were. */
    method ResetAsWritten() returns (ok: bool)
      modifies progress
      ensures !ok && progress.state == ProgressState(0, 0)
      ensures titleToDateFreq.entries == old(titleToDateFreq.entries) && titleToData == old(titleToData)
      ensures userStats.Snapshot() == old(userStats.Snapshot())
    {
      progress.ResetProgress();
      ok := false;
    }
  }
}
