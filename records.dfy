/** The records that flow between the metadata provider (TMDb), the title cache
    and the pipeline. Fields the provider may omit or send as `null` are `Option`s. */
module Records {
  import opened Wrappers
  import opened OrderedDict

  /** `x || null` for a string: the empty string is falsy and becomes `null`. */
  function StrOrNull(x: Option<string>): (r: Option<string>)
    ensures r.Some? <==> x.Some? && x.value != ""
    ensures r.Some? ==> r == x
  {
    if x == Some("") then None else x
  }

  /** `x || null` for a number: 0 is falsy and becomes `null`. */
  function IntOrNull(x: Option<int>): (r: Option<int>)
    ensures r.Some? <==> x.Some? && x.value != 0
    ensures r.Some? ==> r == x
  {
    if x == Some(0) then None else x
  }

  /** `a || b` for strings. */
  function StrOr(a: Option<string>, b: Option<string>): (r: Option<string>)
    ensures StrOrNull(a).Some? ==> r == a
    ensures StrOrNull(a).None? ==> r == b
  {
    if StrOrNull(a).Some? then a else b
  }

  datatype Genre = Genre(name: string)

  /** A row of the title cache (`tmdb_titles`), and the record `getData` builds from a
      live lookup; `mediaType` is 0 for a show and 1 for a movie. */
  datatype TitleRecord = TitleRecord(
    normalizedTitle: Option<string>,
    originalTitle: Option<string>,
    tmdbId: Option<int>,
    mediaType: int,
    genres: Option<seq<Genre>>,
    runtime: Option<int>,
    numberOfEpisodes: Option<int>,
    episodeRunTime: Option<int>,
    releaseDate: Option<string>,
    firstAirDate: Option<string>,
    posterPath: Option<string>)

  /** The property name `obj[record.normalized_title]` uses: `null` becomes "null". */
  function KeyOf(r: TitleRecord): (k: string)
    ensures r.normalizedTitle.Some? ==> k == r.normalizedTitle.value
    ensures r.normalizedTitle.None? ==> k == "null"
  {
    r.normalizedTitle.GetOr("null")
  }

  /** One search result of `/search/multi`. */
  datatype Candidate = Candidate(mediaType: string, id: int, popularity: real, voteCount: int)

  datatype Provider = Provider(providerName: string)

  /** A country's entry of a watch-providers response. */
  datatype Region = Region(flatrate: Option<seq<Provider>>)

  /** A watch-providers response: `results` maps country codes to regions. */
  datatype WatchProviders = WatchProviders(results: Option<Dict<string, Region>>)

  datatype LastEpisode = LastEpisode(runtime: Option<int>)

  /** A movie or show details response; `name`/`originalName` are set for shows,
      `title`/`originalTitle` for movies. */
  datatype Details = Details(
    name: Option<string>,
    originalName: Option<string>,
    title: Option<string>,
    originalTitle: Option<string>,
    id: Option<int>,
    genres: Option<seq<Genre>>,
    numberOfEpisodes: Option<int>,
    episodeRunTime: Option<seq<int>>,
    lastEpisodeToAir: Option<LastEpisode>,
    firstAirDate: Option<string>,
    releaseDate: Option<string>,
    runtime: Option<int>,
    posterPath: Option<string>)

  /** A details response together with the `media_type` copied onto it from the
      chosen candidate. */
  datatype Match = Match(details: Details, mediaType: string)
}
