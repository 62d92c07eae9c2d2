# Statflix watch-history pipeline, modelled in Dafny

Statflix reads a streaming service's viewing-history export, a CSV file of
`Title,Date` rows. It turns the export into viewing statistics: top genres,
watch time, the most-watched and most-binged titles, completed shows, and
the oldest show and movie watched. A small React front end pages through
these statistics as slides.

This project models the core of that pipeline and proves properties of the
model:

- **Title normalisation and string helpers** (`Helpers`, `LegacyHelpers`,
  with JavaScript string semantics in `Strings`).
  - Keyword stripping, base titles and alphanumeric filtering.
  - The Netflix and major-platform checks and the episode run time.
  - The older `normalizeTitle` and `getTitle`.
- **The viewing index** `titleToDateFreq` (`Viewing`, over the
  insertion-ordered dictionary `OrderedDict`).
  - It is built by the CSV header check and row handler, then re-keyed by
    canonical title in the `end` handler (`Server`).
- **The resolution chain** `getData` / `getTitleFromTMDB` (`Server`).
  - The order is exact cache, `&`/`(` variant, fuzzy colon-prefix match,
    then live search.
  - The live search shortens its query chunk by chunk and ends with an
    argmax over the candidates' scores.
- **The statistics** `userStats` (`Logging`, `Binge`).
  - A class whose `log*` methods update its fields in place.
  - It includes the binge-streak scanner, with its 2-hour / 30-hour windows
    and the three-episode inertia rule.
  - `logUserStats` and `main`'s loop drive it (`Server`).
- **App state** on the server side: the progress cell (`Progress`) and the
  reset route (`Server.Server.ResetState`).
- **Front-end state machines**:
  - slide shaping, paging, `clamp` and the wheel accumulator of the stats
    page (`StatsPage`);
  - `apiUrl` and `pct` of the loading page (`SampleLoading`);
  - the carousel index (`Carousel`).

Timestamps are integer milliseconds. In the binge windows, 2 hours and
30 hours become `7200000` and `108000000`.

The external services are fields of `Server.Services`, each a function from
its inputs:
- the title cache, a case-insensitive map;
- the similarity match;
- the TMDb search, details and watch-provider calls;
- the platform's date parser.

## The stats page's endpoint

The stats page fetches `/api/stats-json`, which `backend/src/server.js` does
not define: its routes are `/api/sample`, `/api/progress`, `/api/stats`
(plain text) and `/api/reset`. `StatsPage` therefore models the page on the
JSON shape the slides read.

The model follows the code as written. The places where the code departs
from what it evidently intends are listed under "## Findings", each with a
definition of the intended behaviour and a lemma about it.

## Model

| member | source | states |
|---|---|---|
| Helpers.WithSlot | backend/src/utils/helpers.js:17-22 | `newTitle` gets an empty entry (no dates, frequency 0), appended last in key order, exactly when it has none; every existing entry is kept as it was |
| Helpers.Absorb | backend/src/utils/helpers.js:25-30 | when the source index has `currTitle`, the target entry's dates become its own followed by the source's and the frequencies add up; no key is added or moved, other entries are unchanged, and without `currTitle` nothing changes |
| Helpers.UpdateTitleToDateFreq | backend/src/utils/helpers.js:15-33 | updates `tempDict` in place and returns that same object, whose entries are the slot step followed by the merge step; when both arguments are the same object the source is read after the slot was created |
| Helpers.AbsorbTotal | backend/src/utils/helpers.js:15-33 | the merge raises the target's total frequency by exactly the frequency of the source's `currTitle` entry (0 when it has none) |
| Helpers.GetTitleWatchFrequency | backend/src/utils/helpers.js:87-89 | for a present title (a missing one throws), in an index kept valid it is the number of dates recorded for the title |
| Helpers.GetEpisodeRunTime | backend/src/utils/helpers.js:57-65 | the first listed episode run time when the list is non-empty; for an empty list the last aired episode's run time, or 0 when that is missing or 0; 0 when there is no list |
| Helpers.RemoveNonAlphaNumeric | backend/src/utils/helpers.js:105-107 | only ASCII letters, digits and white space remain, each of those characters keeps its number of occurrences, and a title made only of them comes back unchanged |
| Helpers.RemoveNonAlphaNumericIdempotent | backend/src/utils/helpers.js:105-107 | stripping twice is stripping once |
| Helpers.IsValidString | backend/src/utils/helpers.js:247-252 | true exactly for a string that has a character other than white space |
| Helpers.KeywordIndex | backend/src/utils/helpers.js:177 | -1, or the first index at which the lower-cased keyword occurs in the lower-cased title; no occurrence starts before it |
| Helpers.CutBeforeIsSlice | backend/src/utils/helpers.js:179 | the text before the keyword, less its last `:`-piece, trimmed, is a contiguous slice ending no later than the keyword |
| Helpers.KeptPrefix | backend/src/utils/helpers.js:179 | `split(":").slice(0, -1).join(":")` keeps a prefix of the string |
| Helpers.CutIsSlice | backend/src/utils/helpers.js:177-180 | one pass of the loop leaves a slice of the title that ends before the keyword when it was found |
| Helpers.NoKeywordInSlice | backend/src/utils/helpers.js:177 | a keyword absent from the title is absent from every slice of it |
| Helpers.CutRemoves | backend/src/utils/helpers.js:177-180 | after its pass a non-empty keyword occurs nowhere in the title, in any letter case |
| Helpers.CutBackToColon | backend/src/utils/helpers.js:179 | a found keyword cuts the title back to just before the last `:` preceding it, trimmed, and to "" when no `:` precedes it |
| Helpers.CutEach | backend/src/utils/helpers.js:176-181 | the loop over a list of non-empty keywords computes the cut sequence, and afterwards none of the keywords occurs in the title |
| Helpers.RemoveEpisodicKeywords | backend/src/utils/helpers.js:166-183 | the result is the trimmed outcome of the six cuts in the order Season, Episode, Part, Volume, Limited Series, Chapter; it is trimmed and contains none of the six keywords in any case |
| Helpers.CutKeepsRemoved | backend/src/utils/helpers.js:176-181 | a cut removes its own keyword and brings back none removed by earlier passes |
| Helpers.TrimKeepsRemoved | backend/src/utils/helpers.js:182 | the final trim brings back no keyword |
| Helpers.CutAllNoKeyword | backend/src/utils/helpers.js:176-181 | a title that contains none of the keywords passes through all cuts unchanged |
| Helpers.CutAllRemoves | backend/src/utils/helpers.js:176-181 | every keyword in the list is gone from the result of the loop |
| Helpers.CutAllKeepsAbsent | backend/src/utils/helpers.js:176-181 | the cuts only take slices, so a keyword absent before the loop is absent after it |
| Helpers.SeparatorsNonEmpty | backend/src/utils/helpers.js:167-174 | none of the six separators is empty |
| Helpers.TrimmedCutsIdempotent | backend/src/utils/helpers.js:176-182 | for any list of non-empty keywords, cutting and trimming a second time changes nothing |
| Helpers.EpisodicStrippedIdempotent | backend/src/utils/helpers.js:166-183 | `removeEpisodicKeywords` is idempotent |
| Helpers.ChosenKey | backend/src/utils/helpers.js:119-147 | the `switch (true)` picks a keyword, matched case-sensitively in the source's order, that the raw title includes; no keyword is picked only when the title includes none of them |
| Helpers.SkipSpaces | backend/src/utils/helpers.js:122 | the `\s*` of the lookahead: the first index from `p` on that is not white space, all skipped characters being white space |
| Helpers.SplitPoint | backend/src/utils/helpers.js:122-146 | the first piece of the lookahead split ends at the least position from which white space and then the keyword (ASCII case folded) follow, or at the end of the string |
| Helpers.LeadingPiece | backend/src/utils/helpers.js:122-146 | `split(...)[0]` is a prefix of the title |
| Helpers.BasePiece | backend/src/utils/helpers.js:119-153 | the piece the switch leaves is a prefix of the raw title (the whole title when no case matches) |
| Helpers.GetBaseTitle | backend/src/utils/helpers.js:116-158 | the base title holds no `:`, and a title including none of the keywords or `:` is returned unchanged |
| Helpers.BaseTitleBeforeKeyword | backend/src/utils/helpers.js:119-157 | when the chosen keyword first occurs at index `p` past 0, the base title is cut at a point `q` with `1 <= q <= p`, only white space lies between `q` and `p`, the character before `q` is not white space, and the base title is the text before `q` with every `:` removed |
| Helpers.KeyStartsUnspaced | backend/src/utils/helpers.js:121-146 | every keyword of the switch starts with a character that is not white space |
| Helpers.Flatrate | backend/src/utils/helpers.js:216 | `data?.[country]?.flatrate \|\| []`: the country's list, or empty when the data, the country or its list is missing |
| Helpers.NetflixAmongIff | backend/src/utils/helpers.js:215-228 | the early-exit loop over a list of countries, less skipped ones, finds Netflix exactly when some country in it that is not skipped lists Netflix |
| Helpers.IsAvailableOnNetflix | backend/src/utils/helpers.js:209-231 | false for a falsy argument; otherwise true exactly when one of the keys "0" to "4" (the `for..in` indices of the priority array) or a country outside the priority list lists Netflix |
| Helpers.PriorityOnlyNeverNetflix | backend/src/utils/helpers.js:213-228 | a response listing only the priority countries US, GB, CA, AU and IN is never "available on Netflix", whatever they offer |
| Helpers.AvailableOnNetflixOutsidePriority | backend/src/utils/helpers.js:213-228 | for a response keyed by country codes the answer is exactly whether some non-priority country offers Netflix |
| Helpers.ResultsOf | backend/src/utils/helpers.js:238 | `watchProviders?.results`: no results for a missing response |
| Helpers.IsOnMajorPlatform | backend/src/utils/helpers.js:233-245 | true exactly when the US, CA or GB list offers Netflix, Hulu, Max or Disney Plus |
| Helpers.AvailableOnNetflixIntendedIff | backend/src/utils/helpers.js:209-231 | with `for..of` over the priority list, a title is available on Netflix exactly when some country of the response, priority or not, offers Netflix on its flat rate |
| Helpers.UsNetflixIsMajorNotAvailable | backend/src/utils/helpers.js:209-245 | Netflix offered in the US only counts as a major platform but not as available on Netflix |
| LegacyHelpers.NormalizeTitle | backend/helpers.js:89-94 | the key holds only lower-case ASCII letters and digits, and each ASCII letter or digit of the lowered, trimmed title as often as there |
| LegacyHelpers.NormalizeTitleIsFilteredLower | backend/helpers.js:90-93 | the key is the lowered title with every character outside `[a-z0-9]` removed: the trim is redundant |
| LegacyHelpers.SpaceNotAlnum | backend/helpers.js:92-93 | no white-space character is a letter or digit, so the filter drops what the trim would |
| LegacyHelpers.NormalizeTitleIgnoresCase | backend/helpers.js:90-93 | titles equal up to ASCII letter case get the same key |
| LegacyHelpers.NormalizeTitleIdempotent | backend/helpers.js:89-94 | a key is its own key |
| LegacyHelpers.KeyFixed | backend/helpers.js:90-93 | a string of lower-case letters and digits passes each step of the key unchanged |
| LegacyHelpers.GetTitle | backend/helpers.js:103-135 | `getTitle` returns the trimmed text before the first `:` (the whole title trimmed when there is none), which holds no `:`; the `switch` result is never used |
| LegacyHelpers.GetTitleIdempotent | backend/helpers.js:134 | applying `getTitle` twice is applying it once |
| LegacyHelpers.LegacyEpisodeRunTime | backend/helpers.js:29-35 | the older `getEpisodeRunTime` throws without `episode_run_time`, returns its first element when non-empty, and the last episode's run time (throwing without one) when empty |
| LegacyHelpers.EpisodeRunTimeVersions | backend/helpers.js:29-35 | the newer helper agrees with the older one wherever that returns a number, and answers 0 where it throws or returns nothing |
| LegacyHelpers.GetOriginalTitle | backend/helpers.js:58-60 | the original title is present exactly for a known normalized title, and is the stored one |
| LegacyHelpers.GetTitleWatchFrequency | backend/helpers.js:70-72 | the frequency read succeeds exactly for a known title and is then its number of dates; a missing title throws |
| Strings.LowerChar | backend/src/utils/helpers.js:177 | `toLowerCase` on one character leaves no upper-case ASCII letter, keeps letters, digits and white space what they were, and changes nothing else |
| Strings.Lower | backend/src/utils/helpers.js:177 | `toLowerCase` keeps the length and lowers each character in place |
| Strings.LowerSlice | backend/src/utils/helpers.js:177-179 | lowering commutes with slicing, so an index found in the lowered title is one in the title |
| Strings.LowerIdempotent | backend/src/server.js:281 | lowering twice is lowering once |
| Strings.TrimLeft | backend/src/utils/helpers.js:179 | the first non-space index at or after `i`, with only white space skipped |
| Strings.TrimRight | backend/src/utils/helpers.js:179 | the end index after dropping trailing white space, with only white space dropped |
| Strings.Trim | backend/src/utils/helpers.js:179-182 | `trim()` yields a string with no white space at either end, no longer than the input, and leaves a trimmed string alone |
| Strings.TrimIdempotent | backend/src/utils/helpers.js:182 | trimming twice is trimming once |
| Strings.TrimIsSlice | backend/src/utils/helpers.js:179 | the trimmed string is a slice of the input with only white space before and after it |
| Strings.TrimAbsent | backend/src/utils/helpers.js:179 | trimming introduces no character |
| Strings.TrimEmpty | backend/src/utils/helpers.js:248 | `trim().length > 0` fails exactly for a string of white space only |
| Strings.IndexFrom | backend/src/utils/helpers.js:177 | the first occurrence of the pattern at or after `from`, or -1 when there is none |
| Strings.IndexOf | backend/src/utils/helpers.js:177 | `indexOf`: -1 exactly when the pattern occurs nowhere, otherwise its first occurrence |
| Strings.NoMatchBetween | backend/src/utils/helpers.js:177-179 | a pattern occurring nowhere inside a slice is not found in it |
| Strings.NoMatchInSlice | backend/src/utils/helpers.js:177-179 | a pattern absent from a string is absent from each of its slices |
| Strings.NoMatchAfterTrim | backend/src/utils/helpers.js:179 | a pattern absent from a string is absent once it is trimmed |
| Strings.Find | backend/src/server.js:291 | `indexOf` of a character: -1 exactly when it is absent, otherwise its first position |
| Strings.FindIsIndexOf | backend/src/server.js:291 | the character search is the pattern search for a one-character pattern |
| Strings.LastFind | backend/src/utils/helpers.js:179 | the last position of a character, -1 exactly when it is absent |
| Strings.Split | backend/src/utils/helpers.js:179 | `split(":")` yields at least one piece, no piece holds the separator, and a string without it is its own sole piece |
| Strings.JoinSplit | backend/src/utils/helpers.js:179 | joining the pieces of a split with the separator gives back the string |
| Strings.JoinDropLastSplit | backend/src/utils/helpers.js:179 | `split(":").slice(0, -1).join(":")` is the string before its last `:`, and "" when there is no `:` |
| Strings.ReplaceAll | backend/src/utils/helpers.js:156 | `replaceAll` of a character leaves none of it when the replacement has none, and leaves a string without it alone |
| Strings.ReplaceAllKeeps | backend/src/server.js:290-291 | replacing `&` by "and" neither adds nor removes a `(` |
| Strings.ReplaceAllBefore | backend/src/server.js:290-292 | the text before the first `(` after the replacement is the replacement of the text before the first `(` |
| Strings.Filter | backend/src/utils/helpers.js:106 | `replaceAll(/[^a-z0-9\s]/gi, "")` keeps only kept characters and leaves a string of kept characters alone |
| Strings.FilterAppend | backend/src/utils/helpers.js:106 | filtering distributes over concatenation |
| Strings.FilterNone | backend/src/utils/helpers.js:106 | a string with no kept character filters to "" |
| Strings.FilterCounts | backend/src/utils/helpers.js:106 | each kept character occurs as often after filtering as before and every dropped character not at all |
| Strings.FilterTrim | backend/src/utils/helpers.js:106 | when white space is not kept, trimming first changes nothing |
| Strings.FilterAround | backend/src/utils/helpers.js:106 | surrounding text with no kept character does not change the filtered result |
| Strings.FilterFrom | backend/src/utils/helpers.js:106 | every character of the filtered string comes from the input |
| Strings.FilterIdempotent | backend/src/utils/helpers.js:106 | filtering twice is filtering once |
| OrderedDict.Dict.Put | backend/src/utils/logging.js:78-80 | `obj[k] = v` on a plain object: the value under `k` becomes `v`, an existing key keeps its place in the key order, a new key goes last |
| OrderedDict.Dict.Entries | backend/src/utils/logging.js:89 | `Object.entries` lists one pair per key, in key order, each with that key's value |
| OrderedDict.Empty | backend/src/server.js:109 | `{}` has no keys and no values |
| OrderedDict.KeyIndex | backend/src/utils/logging.js:240 | every key of the object is visited by the loop over its entries, at some position |
| OrderedDict.SumOverAppend | backend/src/utils/logging.js:146-156 | a sum over keys grows by the value of a key appended at the end |
| OrderedDict.SumOverOthers | backend/src/utils/logging.js:146-156 | changing the value of a key not summed over leaves the sum alone |
| OrderedDict.SumOverUpdate | backend/src/utils/logging.js:146-156 | changing the value of a summed key changes the sum by the difference |
| OrderedDict.PutSum | backend/src/utils/logging.js:146-156 | after `obj[k] = v` the sum over all values moves by the new value less the old one (0 for a new key) |
| OrderedDict.Insert | backend/src/utils/logging.js:90 | inserting one element keeps every other element: the multiset grows by exactly that element |
| OrderedDict.InsertSorted | backend/src/utils/logging.js:90 | insertion into a sorted sequence keeps it sorted |
| OrderedDict.SortBy | backend/src/utils/logging.js:90 | `sort` with a numeric comparator returns a permutation of its input ordered by the key |
| OrderedDict.WithKey | backend/src/utils/logging.js:90 | the elements of a sequence with a given key |
| OrderedDict.WithKeyAppend | backend/src/utils/logging.js:90 | selecting one key distributes over concatenation |
| OrderedDict.WithKeyNone | backend/src/utils/logging.js:90 | when every key is larger, nothing is selected |
| OrderedDict.InsertWithKey | backend/src/utils/logging.js:90 | insertion puts an element after every element with the same key already there |
| OrderedDict.SortByStable | backend/src/utils/logging.js:90 | the sort is stable: elements with equal keys keep their relative order |
| OrderedDict.SortByHead | backend/src/utils/logging.js:200-202 | the first element after sorting is the first element of the input with the least key |
| OrderedDict.SortBySorted | backend/src/utils/logging.js:242 | sorting an already sorted sequence leaves it as it is |
| OrderedDict.InsertLast | backend/src/utils/logging.js:242 | an element no smaller than every other goes last |
| OrderedDict.Take | backend/src/utils/logging.js:91 | `slice(0, n)` is the prefix of length `n`, or the whole sequence when it is shorter |
| OrderedDict.TopBySort | backend/src/utils/logging.js:89-91 | sort-then-slice keeps a sorted sub-multiset of the input, and every element left out has a key no smaller than any element kept |
| OrderedDict.TakeSortedEntries | backend/src/utils/logging.js:176-178 | the top entries of an object are `min(n, size)` of its own key-value pairs |
| OrderedDict.TopStable | backend/src/utils/logging.js:89-91 | among elements with equal keys, sort-then-slice keeps the earliest ones |
| OrderedDict.TopStableOf | backend/src/utils/logging.js:176-178 | the same for a top list already computed |
| Viewing.WatchDate.Millis | backend/src/utils/logging.js:242 | the number a date stands for in `a - b` is its timestamp, and 0 for `null` |
| Viewing.WithRow | backend/src/server.js:445-452 | a watch appends its date to the title's dates (created empty when missing, with the title last in key order) and keeps every entry well formed; every other entry is unchanged |
| Viewing.ViewingIndex.constructor | backend/src/server.js:109 | the index starts empty |
| Viewing.ViewingIndex.AddWatch | backend/src/server.js:445-452 | the in-place update of `titleToDateFreq[title]` leaves the index that `WithRow` describes |
| Records.StrOrNull | backend/src/server.js:319-346 | `x \|\| null` for a string is `null` exactly for a missing or empty string, and `x` otherwise |
| Records.IntOrNull | backend/src/server.js:319-346 | `x \|\| null` for a number is `null` exactly for a missing number or 0, and `x` otherwise |
| Records.StrOr | backend/src/server.js:390 | `a \|\| b` for strings is `a` when `a` is a non-empty string and `b` otherwise |
| Records.KeyOf | backend/src/server.js:471-481 | `obj[record.normalized_title]` uses the normalized title, and the name "null" when it is `null` |
| Progress.ProgressCell.constructor | backend/src/state/progress.js:2 | progress starts at 0 of 0 |
| Progress.ProgressCell.UpdateProgress | backend/src/state/progress.js:4-6 | `updateProgress` makes the state exactly `{ current: curr, total }` |
| Progress.ProgressCell.ResetProgress | backend/src/state/progress.js:8-10 | `resetProgress` makes the state 0 of 0 |
| Server.HeadersValid | backend/src/server.js:419-436 | the header check passes exactly for two columns that, trimmed and lower-cased, are "title" and "date" in either order |
| Server.Column | backend/src/server.js:439 | `row.Title` / `row.Date` exist exactly when the CSV has a column of exactly that name |
| Server.RowDate | backend/src/utils/helpers.js:191-199 | `getDate`: `null` exactly for a date the platform cannot read, otherwise that date's time |
| Server.CleanRow | backend/src/server.js:439-444 | a row is accepted exactly when both cells are non-blank strings and the title stays non-blank once its episodic keywords are cut; an unreadable date does not reject it (`!isNaN(null)` holds); the accepted title is the cut title |
| Server.IndexRows | backend/src/server.js:437-458 | the index the row handler builds over a run of rows stays well formed (every frequency equals its number of dates) |
| Server.IndexRowsCountsAccepted | backend/src/server.js:437-458 | each accepted row adds exactly one watch to the index and no other row adds any |
| Server.ColumnByHeader | backend/src/server.js:421-426 | a cell found by header comes from a header that normalises to the name asked for |
| Server.LowerCaseHeadersIndexedIntended | backend/src/server.js:421-444 | a reader of the columns the header check accepted indexes a "title,date" row whose cells the handler as written would accept under "Title,Date" and whose date parses |
| Server.RowAcceptedIntendedAgrees | backend/src/server.js:439-444 | under "Title,Date" the intended reader accepts exactly the rows the handler as written accepts whose date parses; an accepted row with an unreadable date is indexed with a `null` date as written |
| Server.LowerCaseHeadersIndexNothing | backend/src/server.js:421-444 | a file headed "title,date" passes the case-insensitive header check, yet no row of it is indexed because the row handler reads `row.Title` case-sensitively |
| Server.CachedResult | backend/src/server.js:281 | the cache answers with the row stored under the title lower-cased, and with nothing when there is none |
| Server.BestTitleMatch | backend/src/server.js:306 | the similarity look-up returns its best row only when the rating exceeds 0.9 |
| Server.VariantTermIntended | backend/src/server.js:287-293 | the intended variant key has no `&` and is trimmed; a title with `(` gets the key as written, and a non-blank title without `(` gets a non-empty key |
| Server.AndKeepsText | backend/src/server.js:290 | spelling every `&` as "and" keeps some character other than white space |
| Server.VariantTerm | backend/src/server.js:290-292 | the second key has every `&` replaced by "and", is cut before the first `(` and trimmed; with no `(` it is "" (`substring(0, -1)`) |
| Server.ShortenFirstHit | backend/src/server.js:216-226 | the shortening loop hits with the longest prefix of the chunks whose try hits, and misses only when every non-empty prefix misses |
| Server.ShortenHit | backend/src/server.js:216-226 | a hit of the shortening loop is the hit of some non-empty prefix |
| Server.Kinds | backend/src/server.js:221 | keeps exactly the tv and movie results, each a result of the search |
| Server.TopCandidates | backend/src/server.js:218-222 | one search yields at most 10 results, all tv or movie |
| Server.SearchStage | backend/src/server.js:215-226 | the search loop ends with at most 10 candidates, all tv or movie |
| Server.SearchHit | backend/src/server.js:216-224 | a hit of the search loop is a list of at most 10 tv or movie candidates |
| Server.ChooseIsFirstMax | backend/src/server.js:232-250 | the scoring loop chooses the first candidate with the highest score, which is positive; nothing is chosen exactly when no score is positive, and the highest score then stays 0 |
| Server.PickIsBest | backend/src/server.js:228-252 | the pick is a candidate of the list with a positive score no other candidate exceeds |
| Server.LiveMatchIsBest | backend/src/server.js:210-269 | a live match is the details, tagged with its media type, of a tv or movie search candidate whose positive score no other candidate exceeds |
| Server.GetTitleFromTMDB | backend/src/server.js:210-269 | the search loop, the scoring loop and the details call compute the live match of the title |
| Server.SearchCandidates | backend/src/server.js:215-226 | the `while` loop popping `titleChunks` computes the search-loop result |
| Server.PickCandidate | backend/src/server.js:228-250 | the sort by popularity and the loop over `highestScore`/`highestTitle` compute the pick |
| Server.LiveRecord | backend/src/server.js:316-347 | a show's record has media type 0, its name, the episode data and no run time or release date; a movie's has media type 1, its title, run time and release date and no episode data; `\|\| null` makes empty strings and zeros `null`; the record's key is never "" |
| Server.LookUpTitle | backend/src/server.js:277-359 | tries exact cache, variant cache, the fuzzy match (only for a title with `:`, without its last chunk) and the live search in that order, each only when the earlier ones found nothing |
| Server.FuzzyMatch | backend/src/server.js:302-312 | the fuzzy `while` loop computes the shortening loop's result over the similarity look-up |
| Server.ResolveMisses | backend/src/server.js:277-359 | a title stays unresolved exactly when no cached row exists under either key, no shortened chunk list has a similarity hit, and the live search finds nothing |
| Server.ExactHitWins | backend/src/server.js:281-285 | two titles equal up to letter case with a cached row resolve to that same row |
| Server.FuzzyKey | backend/src/server.js:304-310 | a fuzzy hit is a row the similarity match rated above 0.9, and so is not titled "" when no such row is |
| Server.ResolvedKey | backend/src/server.js:277-359 | when neither the cache nor the similarity match holds a row titled "", a resolved record is never keyed by "" |
| Server.KeyOfNotBlank | backend/src/server.js:471 | a record is keyed by "" only when its title is "" |
| Server.ResolverAgrees | backend/src/server.js:464 | there is a function answering every title as `getData` does, so the merge below, stated for any such function, covers `getData` |
| Server.MergeAll | backend/src/server.js:463-485 | the merged index after any number of raw titles is well formed |
| Server.SomeResolvesToExists | backend/src/server.js:464-471 | the recursive "some raw title so far resolves to `k`" is exactly the existential over those titles |
| Server.MergeKeysRec | backend/src/server.js:463-485 | a canonical key is in the merged index exactly when some raw title so far resolved to it |
| Server.MergeKeys | backend/src/server.js:463-485 | after the merge a canonical key is present exactly when some raw title resolved to a record with that key |
| Server.MergeEntry | backend/src/server.js:471-482 | a merged entry's frequency is the sum of the frequencies of the raw titles that resolved to its key, and its dates are theirs concatenated in key order |
| Server.NothingMergedYet | backend/src/server.js:471-482 | a key the loop has not merged so far has gathered no dates and no watches |
| Server.MergeEntryStep | backend/src/server.js:471-482 | one more raw title keeps the entry under `k` equal to the dates and frequency gathered from the titles resolving to `k` |
| Server.MergeStep | backend/src/server.js:471-482 | a raw title resolving to `k` appends its dates to `k`'s entry and adds its frequency (creating the entry when missing); any other raw title leaves `k`'s entry as it was |
| Server.NothingResolvedYet | backend/src/server.js:471-482 | when no raw title so far resolved to `k`, nothing has been gathered for `k` |
| Server.MergeTotal | backend/src/server.js:463-485 | the merge loses and invents no watch: the merged total frequency is that of the raw titles that resolve |
| Server.MergeKeepsEveryWatch | backend/src/server.js:463-487 | when every raw title resolves, the merged index holds exactly as many watches as the raw one |
| Server.ResolvedTotalIsSum | backend/src/server.js:463-485 | when every raw title resolves, the resolved total is the sum of all raw frequencies |
| Server.MissedAfterUnresolved | backend/src/server.js:354-356 | the missed titles grow by exactly the unresolved raw titles, in key order |
| Server.GetData | backend/src/server.js:277-359 | `getData` returns the resolver's answer for the title and appends the title to `missedTitles` exactly when that answer is `null` |
| Server.MergeResult | backend/src/server.js:465-484 | a `null` answer skips the title and leaves the progress alone; otherwise the entry is merged under the record's key, the record stored, and the progress set to one more resolved row of the total, keeping the loop invariant |
| Server.MergedState | backend/src/server.js:463-487 | once every raw title is handled the new index is the full merge, the missed titles are the unresolved ones, `titleToData` is the old map with each resolved record stored under its key (the last one resolved wins), old keys are kept, and every merged key holds a record with that key which `getData` returned for one of its raw titles |
| Server.MergeNext | backend/src/server.js:463-485 | one pass of the loop extends the loop invariant by one raw title; the row counter grows by one exactly when the title resolves, and then the progress becomes that count of the number of raw titles, otherwise it is left alone |
| Server.ResolvedPlusUnresolved | backend/src/server.js:463-485 | every raw title so far either resolved (and was counted) or is among the missed ones, and none resolved exactly when the count is 0 |
| Server.ProgressAfter | backend/src/server.js:396-400 | after the loop the progress is `{ current: resolved count, total: raw titles }` when some title resolved, and the state it had before when none did |
| Server.MergeTitles | backend/src/server.js:459-485 | the loop over the raw titles ends with the full merge, the missed titles, a record for every merged key, and the progress given by `ProgressAfter` of the number of titles that resolved |
| Server.EndHandler | backend/src/server.js:459-487 | the `end` handler's new index is the merge of the raw one under the canonical keys, and the missed titles grow by the unresolved raw titles; `titleToData` is the old map with each resolved record stored under its key, old keys are kept, and every merged key holds a record with that key; the progress is the resolved count of the raw title count, or unchanged when nothing resolved |
| Server.Runtime | backend/src/server.js:363 | the per-watch minutes are the run time when it is set and non-zero, otherwise the episode run time when that is, otherwise 45; never 0 |
| Server.LiveRuntime | backend/src/server.js:316-363 | a live show is charged its episode run time and a live movie its run time, either 45 minutes when missing or 0 |
| Server.LogCounts | backend/src/server.js:364-373 | the first updates leave the statistics equal to `TallyLogged` of the old ones: the genres counted, one more title, one more show or movie, the minutes added to the title's entry and to the total, nothing else changed |
| Server.LogGenresAndTitle | backend/src/server.js:367-371 | the genre tally (only for a record with genres) and one more title, nothing else changed |
| Server.LogKindAndTime | backend/src/server.js:372-373 | one more show or movie by media type, and the minutes added to the title's entry and to the total, nothing else changed |
| Server.LogTopTitles | backend/src/server.js:374-375 | the statistics become `RankLogged` of the old ones: the top five and the most watched titles ranked afresh, nothing else changed |
| Server.LogCompletedAndOldest | backend/src/server.js:378-393 | the statistics become `CompletedLogged` of the old ones over the sorted index: the show may be completed and the title is offered to the oldest slot of its kind, nothing else changed |
| Server.LogCountsAndRankings | backend/src/server.js:364-375 | the updates up to the binge record leave the statistics equal to `CountsLogged` of the old ones |
| Server.LogBingeAndAge | backend/src/server.js:376-393 | every entry's dates end up sorted; the call succeeds exactly when the binge record's title has a record, and the statistics become `AgeLogged` of the old ones over the sorted index |
| Server.LogUserStats | backend/src/server.js:361-394 | `logUserStats` sorts every entry's dates, succeeds exactly when the most-binged title has a record, and leaves the statistics equal to `StatsLogged` of the old statistics and the old index; it counts one more title and keeps `total == tvShows + movies` |
| Server.LogBinge | backend/src/utils/logging.js:224-296 | the index ends sorted; the call succeeds exactly when the binge record's title has a record, and then only the binge record changes, to that title, its poster, its streak and its dates; on failure nothing changes |
| Server.GenresAfter | backend/src/utils/logging.js:71-83 | the genre dictionary stays well formed once a record's genres are counted |
| Server.CompletedAfter | backend/src/utils/logging.js:323-337 | `showsCompleted` either stays as it was or gains the title as its last name, and its count keeps matching its names |
| Server.CompletedAfterIntended | backend/src/utils/logging.js:323-337 | under the intended test a show without an episode count is never completed; any show completed was watched at least its known episode count and gains its name last with the count kept; with a known count the result is the one as written |
| Server.TallyLogged | backend/src/server.js:364-373 | the first updates on a statistics value keep it well formed, count one more title as one more show or movie, add the minutes to the total, put the title in the watch times with every watched title resolved, and change no other field |
| Server.RankLogged | backend/src/server.js:374-375 | the ranking updates keep the statistics well formed and change no field but the top five and the most watched title |
| Server.CountsLogged | backend/src/server.js:364-375 | the updates up to the binge record keep the statistics well formed and every watched title resolved, and leave the genre ranking, the binge record, the completed shows, the oldest titles and the missed titles alone |
| Server.CompletedLogged | backend/src/server.js:378-393 | the completed-show and oldest-title updates keep the statistics well formed and change no other field |
| Server.AgeLogged | backend/src/server.js:376-393 | from the binge record on the statistics stay well formed; when the binge title has no record nothing changes; otherwise only the binge record, the completed shows and the oldest titles change |
| Server.StatsLoggedCounts | backend/src/server.js:361-375 | one `logUserStats` keeps the statistics well formed, counts one more title as a show or a movie by media type, keeps `total == tvShows + movies`, charges the run time once per watch to the title's entry and to the total, counts the genres, and leaves the genre ranking and the missed titles alone |
| Server.StatsLoggedRankings | backend/src/server.js:374-375 | after one `logUserStats` the top titles are min(5, number of titles) entries of the watch times by non-increasing minutes, and the most watched title has the most minutes |
| Server.StatsLoggedBinge | backend/src/server.js:376-393 | when the binge title has a record, the call stores it with its poster, streak and dates, completes a show watched at least its episode count (a missing count reads as 0) and offers the title to the oldest slot of its kind only; when it has none, the binge record, completed shows and oldest titles are untouched |
| Server.DataAfterRecord | backend/src/server.js:465-476 | a key has a record after the first `n` raw titles exactly when it had one before or one of them resolved to it; such a key holds the answer for the last raw title resolving to it, any other key keeps its old record |
| Server.StatsLoggedSorted | backend/src/server.js:502-505 | `logUserStats` over the index the first call sorted computes the same statistics as over the index before sorting |
| Server.StatsLoggedValid | backend/src/server.js:361-375 | one `logUserStats` keeps the statistics well formed with every watched title resolved, counts one more title and keeps `total == tvShows + movies` |
| Server.StatsAfterLoggable | backend/src/server.js:502-505 | along the loop every step is `StatsLogged` of the next title, the statistics stay well formed with every watched title resolved, `n` titles add `n` to the total, and `total == tvShows + movies` is kept |
| Server.StatsAfterStep | backend/src/server.js:502-505 | logging title `i` over the index as it is, unsorted if no call has run yet or sorted afterwards, gives the fold over the first `i + 1` titles |
| Server.LoggedNextTitle | backend/src/server.js:502-504 | the loop's `i`-th title is the `i`-th key of the original index, is indexed and has its record, and sorting the current index gives the sorted original |
| Server.LoggedNext | backend/src/server.js:502-505 | logging the loop's next title over the current index, as `logUserStats` computes it, leaves the loop state one title further on |
| Server.MergedRecords | backend/src/server.js:463-487 | after the merge the old keys are kept and every merged key holds a record whose key it is and which `getData` returned for one of the raw titles |
| Server.Server.constructor | backend/src/server.js:25-110 | the process starts with an empty viewing index, no records, the initial `userStats` literal and progress 0 of 0 |
| Server.Server.ResetUserStats | backend/src/server.js:124-208 | `resetUserStats` installs fresh statistics equal to the initial `userStats` literal (every count 0, empty dictionaries and lists, unnamed records, `showsCompleted` `[0]`), and nothing else changes |
| Server.Server.ResetState | backend/src/server.js:550-558 | the reset route sets progress to 0 of 0, empties the viewing index and the records, and installs fresh statistics equal to the initial literal (with the capture helpers assumed to exist) |
| Server.Server.ResetAsWritten | backend/src/server.js:550-553 | as written the route fails once `resetProgress` has run: progress is 0 of 0 and the viewing index, the records and the statistics are unchanged |
| Server.Server.AddRow | backend/src/server.js:437-458 | an accepted row adds its date to the entry of its cleaned title; any other row changes nothing |
| Server.Server.AddRows | backend/src/server.js:437-458 | the row handler over every row leaves exactly the index those rows build |
| Server.Server.RecordWatch | backend/src/server.js:445-452 | `titleToDateFreq[title]` gets one more watch on that date, created when missing |
| Server.Server.ResolveAll | backend/src/server.js:459-487 | the `end` handler replaces the raw index by the merged one, logs the unresolved titles as missed, stores each resolved record under its key on top of the old records, and leaves the progress at the resolved count of the raw title count (unchanged when nothing resolved) |
| Server.Server.LogAllStats | backend/src/server.js:502-505 | the statistics loop completes exactly when there are no titles or the most-binged title has a record; a non-empty index ends sorted; when it completes the statistics are `StatsAfter` of the old ones over every title in key order, and when it stops they are `StatsAfter` of the first title only; `topGenres` is untouched either way |
| Server.LogNext | backend/src/server.js:502-505 | one pass of the loop extends the fold by the next title and reports whether the most-binged title of the sorted index has a record |
| Server.Server.PrintUserStats | backend/src/utils/logging.js:13-16 | `printUserStats` changes nothing but `topGenres`, which becomes the top three genres when any genre was counted; with no genres nothing changes |
| Server.Server.MainAsWritten | backend/src/server.js:500-512 | as written no run of `main` completes, and `topGenres` keeps the value it had before the run |
| Server.Server.EndAndLog | backend/src/server.js:459-505 | the `end` handler then the statistics loop keep the viewing index well formed, every title with watch time has its record, the statistics invariants (total watch time is the sum of the per-title minutes, `showsCompleted[0]` is the number of names after it, the missed count is the length of the missed list) hold, `total == tvShows + movies` is kept, and `topGenres` is untouched |
| Server.Server.ProcessHistory | backend/src/server.js:412-511 | a history with bad headers never completes; a completed run with counted genres ends with `topGenres` the top three of them; after any history the statistics invariants (total watch time is the sum of the per-title minutes, `showsCompleted[0]` is the number of names after it, the missed count is the length of the missed list) hold and `total == tvShows + movies` is kept |
| Logging.Tally | backend/src/utils/logging.js:77-81 | one genre raises its own count by one (a new name enters last with 1) and leaves every other count and the order of the existing names alone |
| Logging.CountGenresStep | backend/src/utils/logging.js:75-82 | the counts after `i + 1` genres are the counts after `i` genres with one more tally for genre `i` |
| Logging.CountEach | backend/src/utils/logging.js:75-82 | the loop over the genre array computes the genre-by-genre tally of the array, in array order |
| Logging.GenreCounts | backend/src/utils/logging.js:71-83 | after the loop each name's count is its old count plus the number of genres of that name in the array; the names already counted keep their order in front |
| Logging.TopGenresAreTop | backend/src/utils/logging.js:88-91 | `topGenres` holds min(3, number of genres) entries, each a genre with its true count, by non-increasing count, and no genre left out has a larger count than one kept |
| Logging.TopGenresTies | backend/src/utils/logging.js:89-91 | among genres with equal counts the kept ones are the first ones of that count in insertion order (a stable sort) |
| Logging.WatchEntry | backend/src/utils/logging.js:148-156 | a title already present keeps its entry with `timeWatched` more minutes; a new title gets its media type, the poster path of its record and `timeWatched` minutes |
| Logging.TopWatchedAreTop | backend/src/utils/logging.js:175-179 | `topWatchedTitles` holds min(5, number of titles) entries, each a title with its entry, by non-increasing minutes, and no title left out has more minutes than one kept |
| Logging.MostWatchedIsFirstMax | backend/src/utils/logging.js:200-202 | the first entry of the sorted watch times is the first title in insertion order that has the most minutes |
| Logging.NewDate | backend/src/utils/logging.js:359 | `new Date(x)`: a missing date is the epoch (0) and a date string gives a valid date exactly when it parses |
| Logging.NextOldest | backend/src/utils/logging.js:362-376 | an unnamed slot takes the title, its poster path and the date; a named slot is kept unless the date compares earlier than the one it holds |
| Logging.OldestIsFirstEarliest | backend/src/utils/logging.js:352-395 | with named titles and valid dates, after a run of calls the slot holds the first title, in call order, with the earliest date |
| Logging.InvalidDateSticks | backend/src/utils/logging.js:369 | once a named slot holds an Invalid Date, no later call replaces it, because every comparison with it is false |
| Logging.ScanTitle | backend/src/utils/logging.js:245-288 | the inner loop over one title's sorted dates updates the running best (title, streak, dates) exactly as the binge scan of that title does |
| Logging.SortedStep | backend/src/utils/logging.js:240-242 | sorting the dates of the `n`-th title in place brings the index one title closer to the fully sorted index and changes nothing else |
| Logging.TitlesStep | backend/src/utils/logging.js:240-289 | scanning the titles up to `n + 1` is scanning them up to `n`, then title `n` |
| Logging.SortedDone | backend/src/utils/logging.js:240-289 | once every title's dates are sorted the index equals the sorted index |
| Logging.SortAndScan | backend/src/utils/logging.js:240-289 | the outer loop leaves every title's dates sorted in place (keys and frequencies unchanged) and returns the most-binged title, the longest streak and its dates computed on the sorted index |
| Logging.MostWatchedOf | backend/src/utils/logging.js:199-207 | the most-watched record names a title of the watch times and carries that title's minutes |
| Logging.MostWatchedOfIsFirstMax | backend/src/utils/logging.js:200-206 | the most-watched title has as many minutes as any title, and strictly more than every title before it in insertion order |
| Logging.BingeRecordGuarded | backend/src/utils/logging.js:290-295 | the intended binge record is defined for every title: the record `logMostBingedShow` stores when the title has data, and no poster when it has none |
| Logging.MissingEpisodeCountCompletes | backend/src/utils/logging.js:333-336 | as written a show without an episode count is completed once watched at all, while the intended test never completes it; the two agree when the count is known |
| Logging.UserStats.Snapshot | backend/src/server.js:25-107 | the statistics as one value, well formed exactly when the object is, counted exactly when it is |
| Logging.UserStats.constructor | backend/src/server.js:25-107 | the statistics equal the initial `userStats` literal: empty dictionaries and lists, zero counters, unnamed records with empty posters, `null` oldest dates and `showsCompleted` holding only the count 0 |
| Logging.UserStats.LogTopGenres | backend/src/utils/logging.js:71-83 | the genre counts become the tally of the old counts over the genre array; all invariants are kept |
| Logging.UserStats.GetTopGenres | backend/src/utils/logging.js:88-91 | sets `topGenres` to the top three of the genre counts |
| Logging.UserStats.LogUniqueShowsAndMovies | backend/src/utils/logging.js:104-110 | media type 0 adds one show, any other value one movie; the other counter is unchanged |
| Logging.UserStats.LogUniqueTitlesWatched | backend/src/utils/logging.js:112-114 | the title total grows by one |
| Logging.UserStats.LogWatchTime | backend/src/utils/logging.js:139-157 | the total watch time grows by `timeWatched` and the title's entry becomes the one `WatchEntry` describes, other entries unchanged |
| Logging.UserStats.LogTopWatchedTitles | backend/src/utils/logging.js:175-179 | sets `topWatchedTitles` to the first five entries sorted by minutes |
| Logging.UserStats.LogMostWatchedTitle | backend/src/utils/logging.js:199-207 | for a non-empty watch-time dictionary the most-watched slot becomes the first entry by minutes with its record's poster path |
| Logging.UserStats.LogMostBingedShow | backend/src/utils/logging.js:224-296 | every title's dates are left sorted; when the winning title has a record the binge slot holds it, its poster path, its streak and its dates; otherwise (the empty title of a history with no binge) the lookup throws and the slot is unchanged |
| Logging.UserStats.LogNumShowsCompleted | backend/src/utils/logging.js:323-337 | a show whose watch frequency reaches the episode count (a missing count reads as 0) gets its name appended and the count in front raised by one; otherwise nothing changes |
| Logging.UserStats.LogOldestWatchedShowAndMovie | backend/src/utils/logging.js:352-395 | media type 0 updates only the oldest-show slot, any other value only the oldest-movie slot, each as `NextOldest` describes with the parsed release date |
| Logging.UserStats.LogMissedTitles | backend/src/utils/logging.js:414-417 | the missed count grows by one and the title is appended to the missed list |
| Binge.SortedDates | backend/src/utils/logging.js:242 | the dates sorted by `a - b` (a `null` date counting as 0) are a permutation of the dates in non-decreasing order |
| Binge.Step | backend/src/utils/logging.js:259-281 | a step either fully resets the run to a streak of 1 with no dates, or grows the streak by one and records the current date; a gap of at most 2 hours grows the back-to-back count too, and a gap under 30 hours after at least three back-to-back episodes restarts it at 1 |
| Binge.Keep | backend/src/utils/logging.js:283-287 | only a strictly longer streak replaces the record, which then names the current title, so the earliest of equal streaks stays |
| Binge.SortedIndex | backend/src/utils/logging.js:240-242 | after the loop every title keeps its place and frequency and its dates are sorted |
| Binge.SortedIndexIdempotent | backend/src/utils/logging.js:242 | sorting an already sorted index changes nothing |
| Binge.RunShape | backend/src/utils/logging.js:245-288 | a running binge's counters satisfy 1 ≤ back-to-back ≤ streak ≤ dates seen; its dates are the latest consecutive ones and number the streak or one fewer (a run begun after a reset lacks its first date) |
| Binge.ScanRecord | backend/src/utils/logging.js:253-288 | scanning one title either leaves the record alone or replaces it with a longer streak of that title, at most its number of dates |
| Binge.FarApartNoBinge | backend/src/utils/logging.js:259-281 | dates at least 30 hours apart never start a binge and leave the record untouched |
| Binge.TitlesRecord | backend/src/utils/logging.js:229-289 | the record's streak is at least 1; it names no title exactly when no title had a streak above 1; otherwise it names a scanned title |
| Binge.TitlesBound | backend/src/utils/logging.js:240-289 | the longest streak never exceeds the largest number of dates of any title (or 1) |
| Binge.InertiaExample | backend/src/utils/logging.js:262-272 | three quick episodes carry the streak over a pause under 30 hours: 0 h, 1 h, 1.5 h, 26 h, 27 h is one streak of 5 with all five dates |
| Binge.StepIntended | backend/src/utils/logging.js:259-281 | under the intended rules a step either restarts at a streak of 1 holding the current date, or grows the streak by one and records the current date |
| Binge.RunIntendedDates | backend/src/utils/logging.js:245-281 | under the intended rules every run holds exactly one date per episode of its streak, and its last date is the current one |
| Binge.ResetKeepsFirstDateIntended | backend/src/utils/logging.js:277-281 | under the intended rules 0 h, 40 h, 41 h give a run of 2 holding both 40 h and 41 h |
| Binge.ResetDropsFirstDateExample | backend/src/utils/logging.js:277-281 | after a full reset the new run's first date is not recorded: 0 h, 40 h, 41 h give a streak of 2 with the single date 41 h |
| Binge.NoInertiaExample | backend/src/utils/logging.js:268-281 | two quick episodes do not trigger the inertia rule: 0 h, 1 h, 25 h keep the record of 2 from the first two dates |
| StatsPage.TmdbPosterUrl | frontend/src/pages/StatsPage.js:9-13 | no URL exactly for a falsy poster path; otherwise the TMDb `original` image prefix followed by the path, which can be read back from the URL |
| StatsPage.Poster | frontend/src/pages/StatsPage.js:99 | a slide's poster is the given `posterUrl` when truthy, otherwise the URL built from `posterPath`, and none exactly when neither is truthy |
| StatsPage.BingedPosterIsPoster | frontend/src/pages/StatsPage.js:113-115 | the binge slide's own fallback, which tests the path first, picks the same poster as the other slides |
| StatsPage.Clamp | frontend/src/pages/StatsPage.js:20-22 | for `lo <= hi` the result lies in `[lo, hi]` and is `n` when `n` does; below `lo`, or when `hi < lo`, it is `lo`; above `hi` it is `hi` |
| StatsPage.ClampIdempotent | frontend/src/pages/StatsPage.js:20-22 | clamping twice is clamping once |
| StatsPage.FirstFive | frontend/src/pages/StatsPage.js:83 | `slice(0, 5)` is a prefix of at most five elements, the whole list when it has no more |
| StatsPage.Slides | frontend/src/pages/StatsPage.js:79-346 | there is slide data exactly when statistics have been loaded |
| StatsPage.SlideCount | frontend/src/pages/StatsPage.js:348 | no slides before the statistics arrive and seven after |
| StatsPage.SlidesTopGenres | frontend/src/pages/StatsPage.js:82-84 | the genre slide shows the first (at most five) genre pairs in order, each as its name and count |
| StatsPage.SlidesTopTitles | frontend/src/pages/StatsPage.js:94-100 | the top-titles slide shows the first (at most five) titles in order; a title without `info` shows 0 minutes and no poster, and one with `info` its minutes (0 when missing) and poster |
| StatsPage.SlidesBingeRange | frontend/src/pages/StatsPage.js:117-123 | the binge range runs from the first to the last binged date, and both ends are null exactly when there are no dates |
| StatsPage.SlidesCompletedMirrorsLog | frontend/src/pages/StatsPage.js:125-129 | for a `showsCompleted` list as the backend builds it (the count, then the names) the page reads back that count and exactly those names |
| StatsPage.SlidesDefaults | frontend/src/pages/StatsPage.js:86-149 | missing counts fall back to zero, missing lists to empty and missing titles to null |
| StatsPage.GoPage | frontend/src/pages/StatsPage.js:350 | `go(idx)` lands on a slide index, `idx` itself when it is one |
| StatsPage.NextPage | frontend/src/pages/StatsPage.js:351 | `next` moves one slide on, and stays on the last slide |
| StatsPage.PrevPage | frontend/src/pages/StatsPage.js:352 | `prev` moves one slide back, and stays on the first slide |
| StatsPage.PrevUndoesNext | frontend/src/pages/StatsPage.js:351-352 | before the last slide, `prev` after `next` returns to the slide one started from |
| StatsPage.KeyPage | frontend/src/pages/StatsPage.js:356-369 | ArrowDown, ArrowRight, PageDown and space go to the next slide, ArrowUp, ArrowLeft and PageUp to the previous one, and the page stays a slide index |
| StatsPage.WheelDelta | frontend/src/pages/StatsPage.js:390-395 | a wheel delta in lines counts 16 pixels per line, one in pages the window height per page, and one in pixels as given |
| StatsPage.Wheel | frontend/src/pages/StatsPage.js:384-405 | one wheel event leaves the slide count alone, keeps the page a slide index and moves it by at most one slide |
| StatsPage.WheelIgnored | frontend/src/pages/StatsPage.js:385-388 | with no slides, or while cooling down, a wheel event changes nothing |
| StatsPage.WheelFires | frontend/src/pages/StatsPage.js:397-405 | otherwise the event starts a cooldown exactly when the accumulated delta reaches 140 in absolute value, and then moves one slide in its direction and resets the accumulator; a smaller delta is only accumulated |
| StatsPage.WheelAllCooling | frontend/src/pages/StatsPage.js:388 | while cooling down, any run of wheel events changes nothing |
| StatsPage.WheelAllMovesOnce | frontend/src/pages/StatsPage.js:376-409 | one swipe gives one slide: any run of wheel events before the cooldown ends moves the page by at most one slide, keeping it a slide index |
| StatsPage.StatsView.constructor | frontend/src/pages/StatsPage.js:37-44 | the page starts with no statistics, on slide 0, with the wheel accumulator 0 and no cooldown |
| StatsPage.StatsView.SetStats | frontend/src/pages/StatsPage.js:67 | `setStats(data)` stores the statistics and keeps the page; from slide 0 the state stays valid |
| StatsPage.StatsView.Go | frontend/src/pages/StatsPage.js:350 | `go(idx)` sets the page to the clamped index |
| StatsPage.StatsView.Next | frontend/src/pages/StatsPage.js:351 | `next()` sets the page to the next slide index |
| StatsPage.StatsView.Prev | frontend/src/pages/StatsPage.js:352 | `prev()` sets the page to the previous slide index |
| StatsPage.StatsView.OnKey | frontend/src/pages/StatsPage.js:355-373 | the key handler moves the page as `KeyPage` says and keeps it a slide index |
| StatsPage.StatsView.OnWheel | frontend/src/pages/StatsPage.js:384-409 | the wheel handler leaves the page, accumulator and cooldown as one `Wheel` step on the normalized delta |
| StatsPage.StatsView.EndCooldown | frontend/src/pages/StatsPage.js:406-408 | the timer ends the cooldown |
| SampleLoading.DropTrailingSlash | frontend/src/pages/SampleLoadingPage.js:5 | `replace(/\/$/, "")` drops one final `/` and nothing else |
| SampleLoading.RootedPath | frontend/src/pages/SampleLoadingPage.js:6 | the path starts with `/`: a path that does is kept, any other gets one in front |
| SampleLoading.ApiUrl | frontend/src/pages/SampleLoadingPage.js:4-8 | the URL is the base (less one final `/`) followed by the rooted path, and the rooted path alone when no base is left |
| SampleLoading.ApiUrlParts | frontend/src/pages/SampleLoadingPage.js:4-8 | the URL is the base less at most one final `/`, then one `/`, then the path less at most one leading `/` |
| SampleLoading.ApiUrlSlashInsensitive | frontend/src/pages/SampleLoadingPage.js:5 | a base with or without one final `/` gives the same URL |
| SampleLoading.ApiUrlDoubleSlash | frontend/src/pages/SampleLoadingPage.js:5-7 | only one `/` is dropped, so a base ending in `//` still yields a doubled slash |
| SampleLoading.Round | frontend/src/pages/SampleLoadingPage.js:32 | `Math.round` returns the integer within one half of its argument, halves rounded up |
| SampleLoading.Pct | frontend/src/pages/SampleLoadingPage.js:28-33 | the percentage lies in `[0, 100]` and is 0 while the total is missing or 0 |
| SampleLoading.PctInRangeIsRoundedShare | frontend/src/pages/SampleLoadingPage.js:32 | between 0 and the total, the percentage is the rounded share with nothing clamped |
| SampleLoading.PctEnds | frontend/src/pages/SampleLoadingPage.js:29-32 | a finished job shows 100, a job not yet started (or with no current count) 0 |
| SampleLoading.PctMonotone | frontend/src/pages/SampleLoadingPage.js:28-33 | the percentage never goes down as the current count grows |
| Carousel.JsRem | frontend/src/components/Carousel.js:26 | JavaScript `%` is the remainder of division truncated toward zero: the dividend is the divisor times the truncated quotient plus it, and it lies in `[0, b)` for a non-negative dividend and in `(-b, 0]` for a negative one |
| Carousel.StepLands | frontend/src/components/Carousel.js:26 | from a card, one step either way gives a non-negative sum whose remainder is the neighbouring card, wrapping at both ends |
| Carousel.MoveIndex | frontend/src/components/Carousel.js:25-27 | from a card, a step of one on or back lands on the neighbouring card, from the last to the first and from the first to the last |
| Carousel.MoveWrapsForward | frontend/src/components/Carousel.js:26 | on from the last card is the first |
| Carousel.MoveWrapsBack | frontend/src/components/Carousel.js:26 | back from the first card is the last |
| Carousel.MoveUndo | frontend/src/components/Carousel.js:25-27 | on then back, or back then on, returns to the starting card |
| Carousel.CarouselState.constructor | frontend/src/components/Carousel.js:5 | the carousel starts on card 0 |
| Carousel.CarouselState.MoveSlide | frontend/src/components/Carousel.js:25-43 | `moveSlide` sets the index by the wrap-around step over the three cards, and a button press keeps it a card index |

## Left out

- I/O and platform plumbing are not modelled:
  - file streams and the `csv-parser` event mechanics (all rows are given as a sequence of maps);
  - `process.exit` on a bad header (the run just does not complete);
  - the Express routes other than the reset;
  - console output, and the printing done by `printUserStats` (its one
    write, `topGenres`, is modelled by `Server.Server.PrintUserStats`).
- The print-capture helpers `enablePrintCapture`, `disablePrintCapture`,
  `getCapturedOutput` and `resetCapturedOutput` are called through the
  namespace import of `backend/src/utils/helpers.js`
  (`backend/src/server.js:6`), but that file does not define them. Each call
  throws a `TypeError`.
  - As written, `main` throws at `backend/src/server.js:510`, after its
    loop, so `printUserStats` never runs. The reset route throws at
    `backend/src/server.js:552`, after `resetProgress()`, so only the
    progress is reset. `Server.Server.MainAsWritten` and
    `Server.Server.ResetAsWritten` model this (see "## Findings").
  - `/api/stats` (`backend/src/server.js:546-548`) would throw too; that
    route is not modelled.
- The TMDb HTTP calls, the SQLite cache and the string-similarity library are
  not modelled. They are function fields of `Server.Services`.
  - The similarity match is an oracle returning its best row with a rating;
    the 0.9 threshold is modelled.
- Concurrency is out of scope: `await` and the promise plumbing are modelled
  as sequential calls.
- Date parsing and formatting are left out (`new Date`, `toDateString`,
  `toLocaleDateString`, `formatDate`):
  - a date string either parses to an integer timestamp or is invalid;
  - `Date` comparison is integer comparison.
- The genres field may arrive as a JSON string and is parsed with `JSON.parse`
  (`backend/src/utils/logging.js:72-74`). That parse is left out: genres
  arrive as a list.
- Floating point is replaced by exact reals:
  - popularity, and the `pct` division (with `Math.round` as
    `Floor(x + 0.5)`);
  - the wheel deltas;
  - `minsToHrs` and other display formatting are left out.
- `Number(...)` of a string is not modelled. `StatsPage.CompletedCount`
  gives `None` for any non-empty name in `showsCompleted[0]`, even where
  JavaScript gives a number (`Number("1917")` is 1917, `Number(" ")` is 0).
  The backend only ever stores a count there
  (`backend/src/utils/logging.js:334`).
- `toLowerCase` is modelled on ASCII letters only (`Strings.LowerChar`).
  The case-insensitive regular expressions have ASCII patterns.
- JavaScript objects inherit properties such as "constructor", "toString" and
  "__proto__" from `Object.prototype`. The model's dictionaries hold only
  their own keys.
  - `genre.name in userStats.genres` (`backend/src/utils/logging.js:77`) is
    true for a genre named "constructor", and its count is then
    concatenated onto a function.
  - `!titleToDateFreq[title]` (`backend/src/server.js:445`) is false for a
    title such as "constructor", so no entry is created and the increment
    lands on an inherited function.
  - The model treats these names like any other key.
- Integer-like property names (such as "1917") are not modelled. A JavaScript
  object iterates them first, in numeric order, but `OrderedDict` keeps every
  key in insertion order.
- The initial `topWatchedTitles: {}` is modelled as the empty list. No code
  path reads it before `logTopWatchedTitles` sets it.
- The 300 ms pause after a live lookup (`backend/src/server.js:350`) is left
  out, and so is the `setTimeout` of the wheel cooldown. The timer is `StatsPage.StatsView.EndCooldown`, called by the
  environment.
- React rendering, JSX, framer-motion, the `fetch` and polling loops,
  `AbortController`, analytics and `navigate` (including Escape on the stats
  page) are not modelled.
- The set of titles an index holds after a run of rows is not stated as its
  own lemma. `Server.IndexRowsCountsAccepted` states the count of watches
  instead.
- `verifyMovieOrShow` and `getDate` of `backend/helpers.js` are left out.
  They are unused by the modelled pipeline; `getDate` is modelled once, as
  `Server.RowDate`.
- `logToFile`, `backend/src/utils/kaggle.js` and the commented-out
  `backend/server.js` are not part of this model.
- Server.Server.EndAndLog: states only the invariants it keeps. What the
  merge and the statistics loop compute is stated by `Server.Server.ResolveAll`
  and `Server.Server.LogAllStats`, which it calls in turn.
- Server.Server.ProcessHistory: states only the header verdict, the top
  genres and the invariants. The rows, the merge and the statistics are
  stated by `Server.Server.AddRows`, `Server.Server.ResolveAll` and
  `Server.Server.LogAllStats`. It assumes `enablePrintCapture` and
  `disablePrintCapture` exist and succeed. As written, `main` throws at
  `backend/src/server.js:510` and never sets `topGenres`
  (`Server.Server.MainAsWritten`).
- Server.Server.PrintUserStats: models the call at
  `backend/src/server.js:511` as reached. As written, the capture call
  before it throws, so it never runs.
- Server.Server.ResetState: assumes `resetCapturedOutput` exists and
  succeeds. As written, the route throws at `backend/src/server.js:552` and
  resets only the progress (`Server.Server.ResetAsWritten`).
- Features absent from the code are not modelled: manual overrides,
  hard-reject filters, single-kind retries, and the cache write after a live
  lookup (commented out).

## Findings

In each row, the as-written member models the code and exhibits the
departure. The corrected member states the intended behaviour and has it
proved. For the first seven rows the model keeps the behaviour as written,
because that is what the program computes. The last two rows concern the
print-capture helpers, which `backend/src/utils/helpers.js` does not define.
There the model's `main` and reset route (`Server.Server.ProcessHistory`,
`Server.Server.ResetState`) assume the helpers exist and succeed, as the
surrounding code evidently intends. The as-written members show what the
code does without them.

| source | as written | input that shows it | evidently intended | confidence | as-written member | corrected member |
|---|---|---|---|---|---|---|
| backend/src/utils/helpers.js:215-223 | `for (const country in PRIORITY_COUNTRIES)` visits the indices "0" to "4", and the second loop skips the priority countries | a response where only US offers Netflix gives `false` | `for..of`: the priority countries first, then every other country | not executed | Helpers.PriorityOnlyNeverNetflix | Helpers.AvailableOnNetflixIntendedIff |
| backend/src/server.js:421-439 | the header check lower-cases the headers, but the row handler reads `row.Title` and `row.Date` | a file headed `title,date` passes the header check and indexes no row | read the columns the header check accepted | not executed | Server.LowerCaseHeadersIndexNothing | Server.LowerCaseHeadersIndexedIntended |
| backend/src/server.js:441-444 | `!isNaN(date)` with `getDate` returning `null` for an unreadable date, and `!isNaN(null)` holds | a row dated "not a date" is indexed with a `null` date | reject a row whose date does not parse | not executed | Server.CleanRow | Server.RowAcceptedIntendedAgrees |
| backend/src/utils/logging.js:290-295 | `titleToData[mostBingedShow].poster_path` with the title still "" when no title binges twice | a history where every title is watched once makes `logUserStats` throw, and `main`'s loop stops | read the poster only when the title has data | not executed | Logging.UserStats.LogMostBingedShow | Logging.BingeRecordGuarded |
| backend/src/utils/logging.js:333 | `titleFrequency >= numEps` with `numEps` `null` compares against 0 | a show without an episode count, watched once, counts as completed | complete a show only against a known episode count | not executed | Logging.MissingEpisodeCountCompletes | Server.CompletedAfterIntended |
| backend/src/utils/logging.js:277-281 | a full reset sets `currBingedDates = []`, dropping the date that starts the new run | 0 h, 40 h, 41 h gives a streak of 2 with the single date 41 h | restart the run at the current date (`[dateList[i]]`) | not executed | Binge.ResetDropsFirstDateExample | Binge.RunIntendedDates |
| backend/src/server.js:291-292 | `substring(0, indexOf("("))` with no `(` is `substring(0, -1)`, which is "" | "Pride & Prejudice" gets the variant key "" | keep the whole title when there is no `(` | not executed | Server.VariantTerm | Server.VariantTermIntended |
| backend/src/server.js:510-511 | `main` calls `helper.enablePrintCapture()`, which the namespace `helper` (`backend/src/utils/helpers.js`) does not export, so the call throws a `TypeError` | any history whose statistics loop finishes: `main` throws before `printUserStats`, and `topGenres` keeps its initial `[]` | the capture helpers exist, `printUserStats` runs and sets `topGenres` to the top three genres | not executed | Server.Server.MainAsWritten | Server.Server.ProcessHistory |
| backend/src/server.js:550-553 | the reset route calls `helper.resetCapturedOutput()`, which `backend/src/utils/helpers.js` does not export, right after `resetProgress()` | a reset after a run leaves progress at 0 of 0, but the viewing index, the records and the statistics are those of the run | the whole state starts over: empty index and records, the initial statistics | not executed | Server.Server.ResetAsWritten | Server.Server.ResetState |
