/** The statistics slideshow page (`frontend/src/pages/StatsPage.js`): the
    shaping of the fetched statistics JSON into slide data, and the paging
    state driven by `go`/`next`/`prev`, the keyboard and the wheel. */
module StatsPage {
  import opened Wrappers
  import Logging

  // ------------------------------------------------------------- the input

  /** The two ways an object of the JSON names its poster. */
  datatype Art = Art(posterUrl: Option<string>, posterPath: Option<string>)

  /** The `info` of a `topWatchedTitles` entry. */
  datatype TitleInfo = TitleInfo(minutes: Option<int>, art: Art)

  /** `mostWatchedTitle`. */
  datatype MostJson = MostJson(title: string, minutes: Option<int>, art: Art)

  /** `mostBingedShow`; `datesBinged` is `None` when the field is not an
      array. */
  datatype BingeJson = BingeJson(title: string, epsBinged: Option<int>,
                                 datesBinged: Option<seq<string>>, art: Art)

  /** `oldestWatchedShow` and `oldestWatchedMovie`. */
  datatype OldestJson = OldestJson(title: string, date: Option<string>, art: Art)

  /** `numUniqueTitlesWatched`. */
  datatype UniqueCounts = UniqueCounts(total: int, tvShows: int, movies: int)

  /** The statistics object the page fetches; a `None` field is one that is
      absent or null, and `showsCompleted` is `None` when it is not an array. */
  datatype StatsJson = StatsJson(
    topGenres: Option<seq<(string, int)>>,
    numUniqueTitlesWatched: Option<UniqueCounts>,
    totalWatchTime: Option<int>,
    topWatchedTitles: Option<seq<(string, Option<TitleInfo>)>>,
    mostWatchedTitle: Option<MostJson>,
    mostBingedShow: Option<BingeJson>,
    showsCompleted: Option<seq<Logging.Cell>>,
    oldestWatchedShow: Option<OldestJson>,
    oldestWatchedMovie: Option<OldestJson>)

  // ------------------------------------------------------------ the output

  datatype GenreRow = GenreRow(g: string, c: int)
  datatype PosterRow = PosterRow(title: string, minutes: int, poster: Option<string>)
  datatype OldestRow = OldestRow(title: string, date: Option<string>, poster: Option<string>)

  /** What the seven slides show. `completedCount` is `None` where the first
      element of `showsCompleted` is a non-empty name, whose conversion by
      `Number` the model does not compute. */
  datatype SlideData = SlideData(
    topGenres: seq<GenreRow>,
    unique: UniqueCounts,
    totalMins: int,
    top5: seq<PosterRow>,
    most: Option<PosterRow>,
    binged: Option<BingeJson>,
    bingedPoster: Option<string>,
    bingeStart: Option<string>,
    bingeEnd: Option<string>,
    completedCount: Option<int>,
    completedTitles: seq<Logging.Cell>,
    oldestShow: Option<OldestRow>,
    oldestMovie: Option<OldestRow>)

  const SlideIds: seq<string> := ["genres", "unique", "watchtime", "top5", "most", "binged", "oldest"]

  // ---------------------------------------------------------------- helpers

  /** JavaScript truthiness of an optional string. */
  predicate Truthy(s: Option<string>) {
    s.Some? && s.value != ""
  }

  /** `a || b` on optional strings. */
  function OrElse(a: Option<string>, b: Option<string>): Option<string> {
    if Truthy(a) then a else b
  }

  const PosterPrefix: string := "https://image.tmdb.org/t/p/original"

  /** `tmdbPosterUrl`: null for a falsy path, otherwise the fixed TMDB image
      prefix followed by the path. */
  function TmdbPosterUrl(posterPath: Option<string>): (r: Option<string>)
    ensures r.None? <==> !Truthy(posterPath)
    ensures r.Some? ==> |r.value| > |PosterPrefix| && r.value[..|PosterPrefix|] == PosterPrefix
    ensures r.Some? ==> r.value[|PosterPrefix|..] == posterPath.value
  {
    if Truthy(posterPath) then Some(PosterPrefix + posterPath.value) else None
  }

  /** `posterUrl || tmdbPosterUrl(posterPath)`: the URL when there is one,
      otherwise the one built from the path, and null when neither is set. */
  function Poster(art: Art): (r: Option<string>)
    ensures Truthy(art.posterUrl) ==> r == art.posterUrl
    ensures !Truthy(art.posterUrl) ==> r == TmdbPosterUrl(art.posterPath)
    ensures r.None? <==> !Truthy(art.posterUrl) && !Truthy(art.posterPath)
  {
    OrElse(art.posterUrl, TmdbPosterUrl(art.posterPath))
  }

  /** The binge slide's own fallback, which tests the path before building a
      URL from it, picks the same poster as the other slides. */
  lemma BingedPosterIsPoster(art: Art)
    ensures OrElse(art.posterUrl, if Truthy(art.posterPath) then TmdbPosterUrl(art.posterPath) else None)
            == Poster(art)
  {
  }

  /** `clamp(n, lo, hi)`: `Math.max(lo, Math.min(hi, n))`. */
  function Clamp(n: int, lo: int, hi: int): (r: int)
    ensures lo <= hi ==> lo <= r <= hi
    ensures lo <= n <= hi ==> r == n
    ensures n < lo || hi < lo ==> r == lo
    ensures lo <= hi < n ==> r == hi
  {
    var m := if hi < n then hi else n;
    if lo < m then m else lo
  }

  lemma ClampIdempotent(n: int, lo: int, hi: int)
    ensures Clamp(Clamp(n, lo, hi), lo, hi) == Clamp(n, lo, hi)
  {
  }

  /** `.slice(0, 5)`. */
  function FirstFive<T>(s: seq<T>): (r: seq<T>)
    ensures |r| <= 5 && (|s| <= 5 ==> r == s)
    ensures r == s[..|r|]
  {
    if |s| <= 5 then s else s[..5]
  }

  // --------------------------------------------------------- slide shaping

  function GenreRows(pairs: seq<(string, int)>): seq<GenreRow> {
    seq(|pairs|, i requires 0 <= i < |pairs| => GenreRow(pairs[i].0, pairs[i].1))
  }

  function TopRow(entry: (string, Option<TitleInfo>)): PosterRow {
    match entry.1
    case None => PosterRow(entry.0, 0, None)
    case Some(info) => PosterRow(entry.0, info.minutes.GetOr(0), Poster(info.art))
  }

  function TopRows(entries: seq<(string, Option<TitleInfo>)>): seq<PosterRow> {
    seq(|entries|, i requires 0 <= i < |entries| => TopRow(entries[i]))
  }

  function MostRow(m: Option<MostJson>): Option<PosterRow> {
    match m
    case None => None
    case Some(j) => Some(PosterRow(j.title, j.minutes.GetOr(0), Poster(j.art)))
  }

  function OldestRowOf(o: Option<OldestJson>): Option<OldestRow> {
    match o
    case None => None
    case Some(j) => Some(OldestRow(j.title, j.date, Poster(j.art)))
  }

  /** `bingedDates`: the binge's dates when they are an array, else none. */
  function BingedDates(binged: Option<BingeJson>): seq<string> {
    if binged.Some? && binged.value.datesBinged.Some? then binged.value.datesBinged.value else []
  }

  /** `Number(completedRaw[0] || 0)`. */
  function CompletedCount(raw: seq<Logging.Cell>): Option<int> {
    if |raw| == 0 then Some(0)
    else match raw[0]
      case Count(n) => Some(n)
      case Name(s) => if s == "" then Some(0) else None
  }

  /** The slide data; `None` stands for the empty slide list the page
      builds while no statistics are loaded. */
  function Slides(stats: Option<StatsJson>): (r: Option<SlideData>)
    ensures r.None? <==> stats.None?
  {
    match stats
    case None => None
    case Some(s) =>
      var binged := s.mostBingedShow;
      var dates := BingedDates(binged);
      var raw := s.showsCompleted.GetOr([]);
      Some(SlideData(
        GenreRows(FirstFive(s.topGenres.GetOr([]))),
        s.numUniqueTitlesWatched.GetOr(UniqueCounts(0, 0, 0)),
        s.totalWatchTime.GetOr(0),
        TopRows(FirstFive(s.topWatchedTitles.GetOr([]))),
        MostRow(s.mostWatchedTitle),
        binged,
        if binged.Some? then OrElse(binged.value.art.posterUrl,
                                    if Truthy(binged.value.art.posterPath)
                                    then TmdbPosterUrl(binged.value.art.posterPath) else None)
        else None,
        if |dates| > 0 then Some(dates[0]) else None,
        if |dates| > 0 then Some(dates[|dates| - 1]) else None,
        CompletedCount(raw),
        if |raw| == 0 then [] else raw[1..],
        OldestRowOf(s.oldestWatchedShow),
        OldestRowOf(s.oldestWatchedMovie)))
  }

  /** `slides.length`: no slides before the statistics arrive, seven after. */
  function SlideCount(stats: Option<StatsJson>): (n: nat)
    ensures n == 0 <==> stats.None?
    ensures n == 0 || n == |SlideIds|
  {
    if Slides(stats).None? then 0 else |SlideIds|
  }

  /** The genre slide shows the first (at most five) genres, in order, with
      their counts. */
  lemma SlidesTopGenres(s: StatsJson)
    ensures var rows := Slides(Some(s)).value.topGenres;
            var pairs := s.topGenres.GetOr([]);
            |rows| <= 5 && |rows| <= |pairs| && (|pairs| <= 5 ==> |rows| == |pairs|)
            && forall i | 0 <= i < |rows| :: rows[i] == GenreRow(pairs[i].0, pairs[i].1)
  {
    var pairs := s.topGenres.GetOr([]);
    assert FirstFive(pairs) == pairs[..|FirstFive(pairs)|];
  }

  /** The top-titles slide shows the first (at most five) titles in order;
      a title without `info` shows 0 minutes and no poster. */
  lemma SlidesTopTitles(s: StatsJson)
    ensures var rows := Slides(Some(s)).value.top5;
            var titles := s.topWatchedTitles.GetOr([]);
            |rows| <= 5 && |rows| <= |titles| && (|titles| <= 5 ==> |rows| == |titles|)
            && forall i | 0 <= i < |rows| ::
                 rows[i].title == titles[i].0
                 && (titles[i].1.None? ==> rows[i].minutes == 0 && rows[i].poster.None?)
                 && (titles[i].1.Some? ==> rows[i].minutes == titles[i].1.value.minutes.GetOr(0)
                                           && rows[i].poster == Poster(titles[i].1.value.art))
  {
    var titles := s.topWatchedTitles.GetOr([]);
    assert FirstFive(titles) == titles[..|FirstFive(titles)|];
  }

  /** The binge slide's range runs from the first to the last binged date,
      and is null at both ends when there are no dates. */
  lemma SlidesBingeRange(s: StatsJson)
    ensures var d := Slides(Some(s)).value;
            var dates := BingedDates(s.mostBingedShow);
            (|dates| == 0 <==> d.bingeStart.None?) && (|dates| == 0 <==> d.bingeEnd.None?)
            && (|dates| > 0 ==> d.bingeStart == Some(dates[0]) && d.bingeEnd == Some(dates[|dates| - 1]))
  {
  }

  /** For a `showsCompleted` encoded as the backend builds it (the count,
      then the names) the page reads back that count and exactly those
      names. */
  lemma SlidesCompletedMirrorsLog(s: StatsJson, sc: seq<Logging.Cell>)
    requires s.showsCompleted == Some(sc) && Logging.CompletedValid(sc)
    ensures var d := Slides(Some(s)).value;
            d.completedCount == Some(|d.completedTitles|)
            && d.completedTitles == sc[1..]
            && forall i | 0 <= i < |d.completedTitles| :: d.completedTitles[i].Name?
  {
  }

  /** Missing fields fall back to zero, and missing objects to null. */
  lemma SlidesDefaults(s: StatsJson)
    ensures var d := Slides(Some(s)).value;
            (s.numUniqueTitlesWatched.None? ==> d.unique == UniqueCounts(0, 0, 0))
            && (s.totalWatchTime.None? ==> d.totalMins == 0)
            && (s.mostWatchedTitle.None? <==> d.most.None?)
            && (s.mostBingedShow.None? ==> d.bingedPoster.None? && d.bingeStart.None?)
            && (s.showsCompleted.None? ==> d.completedCount == Some(0) && d.completedTitles == [])
            && (s.oldestWatchedShow.None? <==> d.oldestShow.None?)
            && (s.oldestWatchedMovie.None? <==> d.oldestMovie.None?)
  {
  }

  // ---------------------------------------------------------------- paging

  /** `Math.max(0, total - 1)`: the last slide's index. */
  function MaxPage(total: nat): nat {
    if total == 0 then 0 else total - 1
  }

  /** `go(idx)`. */
  function GoPage(idx: int, total: nat): (r: int)
    ensures 0 <= r <= MaxPage(total)
    ensures 0 <= idx <= MaxPage(total) ==> r == idx
  {
    Clamp(idx, 0, MaxPage(total))
  }

  /** `next()`: one slide on, but never past the last. */
  function NextPage(p: int, total: nat): (r: int)
    ensures 0 <= r <= MaxPage(total)
    ensures 0 <= p < MaxPage(total) ==> r == p + 1
    ensures p >= MaxPage(total) ==> r == MaxPage(total)
  {
    Clamp(p + 1, 0, MaxPage(total))
  }

  /** `prev()`: one slide back, but never before the first. */
  function PrevPage(p: int, total: nat): (r: int)
    ensures 0 <= r <= MaxPage(total)
    ensures 0 < p <= MaxPage(total) ==> r == p - 1
    ensures p <= 0 ==> r == 0
  {
    Clamp(p - 1, 0, MaxPage(total))
  }

  /** From a slide that is not the last, `prev` undoes `next`. */
  lemma PrevUndoesNext(p: int, total: nat)
    requires 0 <= p < MaxPage(total)
    ensures PrevPage(NextPage(p, total), total) == p
  {
  }

  /** The keyboard handler: the down, right, page-down and space keys go on,
      the up, left and page-up keys go back, every other key stays. */
  function KeyPage(key: string, p: int, total: nat): (r: int)
    ensures key in {"ArrowDown", "ArrowRight", "PageDown", " "} ==> r == NextPage(p, total)
    ensures key in {"ArrowUp", "ArrowLeft", "PageUp"} ==> r == PrevPage(p, total)
    ensures 0 <= p <= MaxPage(total) ==> 0 <= r <= MaxPage(total)
  {
    var p1 := if key == "ArrowDown" || key == "ArrowRight" || key == "PageDown" || key == " "
              then NextPage(p, total) else p;
    if key == "ArrowUp" || key == "ArrowLeft" || key == "PageUp" then PrevPage(p1, total) else p1
  }

  // ----------------------------------------------------------------- wheel

  const Thresh: real := 140.0

  function Abs(x: real): real {
    if x < 0.0 then -x else x
  }

  /** An event's scroll in pixels: `deltaMode` 1 counts lines of 16 pixels,
      2 counts pages of the window's height, anything else pixels. */
  function WheelDelta(deltaMode: int, deltaY: real, innerHeight: real): (r: real)
    ensures deltaMode != 1 && deltaMode != 2 ==> r == deltaY
    ensures deltaMode == 1 ==> r == deltaY * 16.0
    ensures deltaMode == 2 ==> r == deltaY * innerHeight
  {
    if deltaMode == 1 then deltaY * 16.0
    else if deltaMode == 2 then deltaY * innerHeight
    else deltaY
  }

  /** The page index, the slide count and the wheel handler's two refs. */
  datatype Pager = Pager(page: int, total: nat, acc: real, cooldown: bool)

  predicate InRange(v: Pager) {
    0 <= v.page <= MaxPage(v.total)
  }

  /** One wheel event of `delta` pixels. */
  function Wheel(v: Pager, delta: real): (r: Pager)
    ensures r.total == v.total
    ensures InRange(v) ==> InRange(r) && -1 <= r.page - v.page <= 1
  {
    if v.total == 0 || v.cooldown then v
    else
      var acc := v.acc + delta;
      if Abs(acc) < Thresh then v.(acc := acc)
      else
        var page := if acc > 0.0 then NextPage(v.page, v.total) else PrevPage(v.page, v.total);
        v.(page := page, acc := 0.0, cooldown := true)
  }

  /** With no slides, or during the cooldown, an event changes nothing. */
  lemma WheelIgnored(v: Pager, delta: real)
    requires v.total == 0 || v.cooldown
    ensures Wheel(v, delta) == v
  {
  }

  /** Otherwise the event fires exactly when the accumulated scroll reaches
      the threshold; then it moves on for a positive sum and back for any
      other, resets the sum and starts the cooldown. Below the threshold it
      only accumulates. */
  lemma WheelFires(v: Pager, delta: real)
    requires v.total > 0 && !v.cooldown
    ensures Wheel(v, delta).cooldown <==> Abs(v.acc + delta) >= Thresh
    ensures Abs(v.acc + delta) >= Thresh ==>
              Wheel(v, delta).acc == 0.0
              && Wheel(v, delta).page == (if v.acc + delta > 0.0 then NextPage(v.page, v.total)
                                          else PrevPage(v.page, v.total))
    ensures Abs(v.acc + delta) < Thresh ==> Wheel(v, delta) == v.(acc := v.acc + delta)
  {
  }

  /** A run of wheel events with no timer firing in between. */
  function WheelAll(v: Pager, deltas: seq<real>): Pager
    decreases |deltas|
  {
    if |deltas| == 0 then v else WheelAll(Wheel(v, deltas[0]), deltas[1..])
  }

  /** Once the cooldown has started, a run of events changes nothing. */
  lemma {:induction false} WheelAllCooling(v: Pager, deltas: seq<real>)
    requires v.cooldown
    ensures WheelAll(v, deltas) == v
    decreases |deltas|
  {
    if |deltas| > 0 {
      WheelAllCooling(Wheel(v, deltas[0]), deltas[1..]);
    }
  }

  /** "One swipe, one slide": however many events a gesture delivers before
      the cooldown timer fires, the page moves by at most one. */
  lemma {:induction false} WheelAllMovesOnce(v: Pager, deltas: seq<real>)
    requires InRange(v)
    ensures InRange(WheelAll(v, deltas))
    ensures -1 <= WheelAll(v, deltas).page - v.page <= 1
    ensures WheelAll(v, deltas).total == v.total
    decreases |deltas|
  {
    if |deltas| > 0 {
      var w := Wheel(v, deltas[0]);
      if w.cooldown {
        WheelAllCooling(w, deltas[1..]);
      } else {
        WheelAllMovesOnce(w, deltas[1..]);
      }
    }
  }

  // ----------------------------------------------------------- page state

  /** The component's state: the fetched statistics, the `page` cell and
      the `wheelAccum` and `wheelCooldown` refs. */
  class StatsView {
    var stats: Option<StatsJson>
    var page: int
    var wheelAccum: real
    var wheelCooldown: bool

    function Total(): nat
      reads this
    {
      SlideCount(stats)
    }

    function State(): Pager
      reads this
    {
      Pager(page, Total(), wheelAccum, wheelCooldown)
    }

    predicate Valid()
      reads this
    {
      InRange(State())
    }

    constructor()
      ensures stats.None? && page == 0 && wheelAccum == 0.0 && !wheelCooldown
      ensures Valid()
    {
      stats := None;
      page := 0;
      wheelAccum := 0.0;
      wheelCooldown := false;
    }

    /** The fetch completing: `setStats(data)`; the page index is kept. */
    method SetStats(data: Option<StatsJson>)
      modifies this`stats
      ensures stats == data
      ensures old(page) == 0 ==> Valid()
    {
      stats := data;
    }

    method Go(idx: int)
      modifies this`page
      ensures page == GoPage(idx, Total())
      ensures Valid()
    {
      page := GoPage(idx, Total());
    }

    method Next()
      modifies this`page
      ensures page == NextPage(old(page), Total())
      ensures Valid()
    {
      page := NextPage(page, Total());
    }

    method Prev()
      modifies this`page
      ensures page == PrevPage(old(page), Total())
      ensures Valid()
    {
      page := PrevPage(page, Total());
    }

    /** `onKeyDown`; the Escape key's navigation away is not modelled. */
    method OnKey(key: string)
      requires Valid()
      modifies this`page
      ensures page == KeyPage(key, old(page), Total())
      ensures Valid()
    {
      if key == "ArrowDown" || key == "ArrowRight" || key == "PageDown" || key == " " {
        Next();
      }
      if key == "ArrowUp" || key == "ArrowLeft" || key == "PageUp" {
        Prev();
      }
    }

    /** The wheel handler. */
    method OnWheel(deltaMode: int, deltaY: real, innerHeight: real)
      modifies this`page, this`wheelAccum, this`wheelCooldown
      ensures State() == Wheel(old(State()), WheelDelta(deltaMode, deltaY, innerHeight))
      ensures old(Valid()) ==> Valid()
    {
      if Total() == 0 {
        return;
      }
      if wheelCooldown {
        return;
      }
      var delta := WheelDelta(deltaMode, deltaY, innerHeight);
      wheelAccum := wheelAccum + delta;
      if Abs(wheelAccum) < Thresh {
        return;
      }
      if wheelAccum > 0.0 {
        Next();
      } else {
        Prev();
      }
      wheelAccum := 0.0;
      wheelCooldown := true;
    }

    /** The cooldown timer firing. */
    method EndCooldown()
      modifies this`wheelCooldown
      ensures !wheelCooldown
    {
      wheelCooldown := false;
    }
  }
}
