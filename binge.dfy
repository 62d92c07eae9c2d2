/** The binge-streak rules of `logMostBingedShow`, as functions over the sorted watch
    dates of each title. Dates are milliseconds, so the hour thresholds become whole
    numbers of milliseconds. */
module Binge {
  import opened OrderedDict
  import opened Viewing

  const HourMs: int := 1000 * 60 * 60

  /** `minEpisodeGap`: two hours. */
  const EpisodeGapMs: int := 2 * HourMs

  /** The 30-hour limit of the "inertia" rule. */
  const InertiaGapMs: int := 30 * HourMs

  /** The sort key of `(a, b) => a - b`: a `null` date counts as 0. */
  function DateKey(d: WatchDate): real {
    d.Millis() as real
  }

  /** `datesWatched.sort((a, b) => a - b)`. */
  function SortedDates(ds: seq<WatchDate>): (r: seq<WatchDate>)
    ensures |r| == |ds| && multiset(r) == multiset(ds)
    ensures forall i, j | 0 <= i < j < |r| :: r[i].Millis() <= r[j].Millis()
  {
    var r := SortBy(ds, DateKey);
    assert forall i | 0 <= i < |r| :: DateKey(r[i]) == r[i].Millis() as real;
    r
  }

  /** `currentBingeStreak`, `epsWatchedConsecutively` and `currBingedDates`. */
  datatype Run = Run(streak: int, fast: int, dates: seq<WatchDate>)

  /** `mostBingedShow`, `longestBingeStreak` and `mostBingedDates`. */
  datatype Best = Best(title: string, streak: int, dates: seq<WatchDate>)

  /** The state before the first title. */
  const NoBinge: Best := Best("", 1, [])

  /** One pass of the inner loop body: the gap from the previous date decides. The
      run either grows by the current date or starts over at length 1. */
  function Step(run: Run, prev: WatchDate, cur: WatchDate): (r: Run)
    ensures r == Run(1, 1, []) || (r.streak == run.streak + 1 && r.dates == run.dates + [cur])
    ensures cur.Millis() - prev.Millis() <= EpisodeGapMs ==>
      r == Run(run.streak + 1, run.fast + 1, run.dates + [cur])
    ensures EpisodeGapMs < cur.Millis() - prev.Millis() < InertiaGapMs && run.fast >= 3 ==>
      r == Run(run.streak + 1, 1, run.dates + [cur])
    ensures cur.Millis() - prev.Millis() > EpisodeGapMs && (run.fast < 3 || cur.Millis() - prev.Millis() >= InertiaGapMs) ==>
      r == Run(1, 1, [])
  {
    var gap := cur.Millis() - prev.Millis();
    if gap <= EpisodeGapMs then Run(run.streak + 1, run.fast + 1, run.dates + [cur])
    else if run.fast >= 3 && gap < InertiaGapMs then Run(run.streak + 1, 1, run.dates + [cur])
    else Run(1, 1, [])
  }

  /** The `if (currentBingeStreak > longestBingeStreak)` update: only a strictly longer
      streak replaces the record, so the earliest of equal streaks stays. */
  function Keep(best: Best, title: string, run: Run): (r: Best)
    ensures r.streak >= best.streak
    ensures r == best || (r.streak > best.streak && r == Best(title, run.streak, run.dates))
    ensures run.streak > best.streak ==> r.title == title
  {
    if run.streak > best.streak then Best(title, run.streak, run.dates) else best
  }

  /** The run and the record after the inner loop has handled indices 1..n-1 of the
      sorted dates `ds` of `title`. */
  function Scan(title: string, ds: seq<WatchDate>, n: nat, best0: Best): (Run, Best)
    requires 1 <= n <= |ds|
    decreases n
  {
    if n == 1 then (Run(1, 1, [ds[0]]), best0)
    else
      var (run, best) := Scan(title, ds, n - 1, best0);
      var next := Step(run, ds[n - 2], ds[n - 1]);
      (next, Keep(best, title, next))
  }

  /** The record after all dates of one title. */
  function TitleBest(title: string, ds: seq<WatchDate>, best0: Best): Best {
    if |ds| == 0 then best0 else Scan(title, ds, |ds|, best0).1
  }

  /** Every entry with its dates sorted, as the loop leaves the index. */
  function SortedIndex(d: Dict<string, Entry>): (r: Dict<string, Entry>)
    requires IndexValid(d)
    ensures IndexValid(r) && r.keys == d.keys && r.vals.Keys == d.vals.Keys
    ensures forall k | k in d.vals ::
      r.vals[k] == Entry(SortedDates(d.vals[k].datesWatched), d.vals[k].titleFrequency)
  {
    Dict(d.keys, map k | k in d.vals :: Entry(SortedDates(d.vals[k].datesWatched), d.vals[k].titleFrequency))
  }

  /** Sorting an index a second time changes nothing. */
  lemma SortedIndexIdempotent(d: Dict<string, Entry>)
    requires IndexValid(d)
    ensures SortedIndex(SortedIndex(d)) == SortedIndex(d)
  {
    var once := SortedIndex(d);
    forall k | k in once.vals
      ensures SortedDates(once.vals[k].datesWatched) == once.vals[k].datesWatched
    {
      SortBySorted(once.vals[k].datesWatched, DateKey);
    }
  }

  /** The record after the first `n` titles, in key order. */
  function Titles(d: Dict<string, Entry>, n: nat): Best
    requires d.Valid() && n <= |d.keys|
  {
    if n == 0 then NoBinge
    else TitleBest(d.keys[n - 1], d.vals[d.keys[n - 1]].datesWatched, Titles(d, n - 1))
  }

  /** The record `logMostBingedShow` stores, over an index whose dates are sorted. */
  function MostBinged(d: Dict<string, Entry>): Best
    requires d.Valid()
  {
    Titles(d, |d.keys|)
  }

  // ---------------------------------------------------------------- properties

  /** A run is counted from its first date, except that a run begun after a full
      reset lacks the date it began on; its dates are the latest consecutive ones. */
  lemma {:induction false} RunShape(title: string, ds: seq<WatchDate>, n: nat, best0: Best)
    requires 1 <= n <= |ds|
    ensures var run := Scan(title, ds, n, best0).0;
      1 <= run.fast <= run.streak <= n &&
      |run.dates| <= run.streak <= |run.dates| + 1 &&
      run.dates == ds[n - |run.dates|..n]
    decreases n
  {
    if n > 1 {
      RunShape(title, ds, n - 1, best0);
      var run := Scan(title, ds, n - 1, best0).0;
      assert ds[n - 1 - |run.dates|..n - 1] + [ds[n - 1]] == ds[n - 1 - |run.dates|..n];
    }
  }

  /** The record only grows, and when it changes it names this title. */
  lemma {:induction false} ScanRecord(title: string, ds: seq<WatchDate>, n: nat, best0: Best)
    requires 1 <= n <= |ds|
    ensures var best := Scan(title, ds, n, best0).1;
      best == best0 || (best.streak > best0.streak && best.title == title && best.streak <= n)
    decreases n
  {
    if n > 1 {
      ScanRecord(title, ds, n - 1, best0);
      RunShape(title, ds, n, best0);
    }
  }

  /** Dates at least 30 hours apart never start a binge: the record is untouched. */
  lemma {:induction false} FarApartNoBinge(title: string, ds: seq<WatchDate>, n: nat, best0: Best)
    requires 1 <= n <= |ds| && best0.streak >= 1
    requires forall i | 1 <= i < |ds| :: ds[i].Millis() - ds[i - 1].Millis() >= InertiaGapMs
    ensures Scan(title, ds, n, best0) == (if n == 1 then Run(1, 1, [ds[0]]) else Run(1, 1, []), best0)
    decreases n
  {
    if n > 1 {
      FarApartNoBinge(title, ds, n - 1, best0);
    }
  }

  /** Over all titles: the record streak is at least 1, and it names no title exactly
      when no title reached a streak above 1. */
  lemma {:induction false} TitlesRecord(d: Dict<string, Entry>, n: nat)
    requires d.Valid() && n <= |d.keys|
    ensures var b := Titles(d, n);
      b.streak >= 1 && (b.streak == 1 <==> b == NoBinge) && (b != NoBinge ==> b.title in d.keys[..n])
    decreases n
  {
    if n > 0 {
      TitlesRecord(d, n - 1);
      var k := d.keys[n - 1];
      var ds := d.vals[k].datesWatched;
      if |ds| > 0 {
        ScanRecord(k, ds, |ds|, Titles(d, n - 1));
      }
      assert d.keys[..n] == d.keys[..n - 1] + [k];
    }
  }

  /** A streak counts dates of one title, so it never exceeds the most dates any
      title has (or 1). */
  lemma {:induction false} TitlesBound(d: Dict<string, Entry>, n: nat, bound: nat)
    requires d.Valid() && n <= |d.keys| && bound >= 1
    requires forall k | k in d.vals :: |d.vals[k].datesWatched| <= bound
    ensures Titles(d, n).streak <= bound
    decreases n
  {
    if n > 0 {
      TitlesBound(d, n - 1, bound);
      var k := d.keys[n - 1];
      var ds := d.vals[k].datesWatched;
      if |ds| > 0 {
        ScanRecord(k, ds, |ds|, Titles(d, n - 1));
      }
    }
  }

  /** Three quick episodes keep the streak through a 24-hour pause: 0 h, 1 h, 1.5 h,
      then 26 h and 27 h make one streak of 5. */
  lemma InertiaExample()
    ensures var ds := [Watched(0), Watched(HourMs), Watched(3 * HourMs / 2), Watched(26 * HourMs), Watched(27 * HourMs)];
      TitleBest("t", ds, NoBinge) == Best("t", 5, ds)
  {
  }

  /** After a full reset the new run's first date is not recorded: 0 h, 40 h, 41 h
      give a streak of 2 with the single date 41 h. */
  lemma ResetDropsFirstDateExample()
    ensures TitleBest("t", [Watched(0), Watched(40 * HourMs), Watched(41 * HourMs)], NoBinge)
         == Best("t", 2, [Watched(41 * HourMs)])
  {
    var ds := [Watched(0), Watched(40 * HourMs), Watched(41 * HourMs)];
    assert Scan("t", ds, 2, NoBinge) == (Run(1, 1, []), NoBinge);
  }

  /** Two quick episodes are not enough for the inertia rule: 0 h, 1 h, 25 h restart. */
  lemma NoInertiaExample()
    ensures TitleBest("t", [Watched(0), Watched(HourMs), Watched(25 * HourMs)], NoBinge)
         == Best("t", 2, [Watched(0), Watched(HourMs)])
  {
  }

  /** The streak rules as evidently intended: a full reset starts the new run at the
      current date and keeps that date. */
  function StepIntended(run: Run, prev: WatchDate, cur: WatchDate): (r: Run)
    ensures r == Run(1, 1, [cur]) || (r.streak == run.streak + 1 && r.dates == run.dates + [cur])
  {
    var gap := cur.Millis() - prev.Millis();
    if gap <= EpisodeGapMs then Run(run.streak + 1, run.fast + 1, run.dates + [cur])
    else if run.fast >= 3 && gap < InertiaGapMs then Run(run.streak + 1, 1, run.dates + [cur])
    else Run(1, 1, [cur])
  }

  /** The run after indices 1..n-1 of `ds` under the intended rules. */
  function RunIntended(ds: seq<WatchDate>, n: nat): Run
    requires 1 <= n <= |ds|
  {
    if n == 1 then Run(1, 1, [ds[0]]) else StepIntended(RunIntended(ds, n - 1), ds[n - 2], ds[n - 1])
  }

  /** Under the intended rules every run holds one date per episode of its streak,
      the last being the current date. */
  lemma {:induction false} RunIntendedDates(ds: seq<WatchDate>, n: nat)
    requires 1 <= n <= |ds|
    ensures var run := RunIntended(ds, n);
      |run.dates| == run.streak && run.streak >= 1 && run.dates[|run.dates| - 1] == ds[n - 1]
  {
    if n > 1 {
      RunIntendedDates(ds, n - 1);
    }
  }

  /** 0 h, 40 h, 41 h under the intended rules: the run after the reset holds both of
      its dates. */
  lemma ResetKeepsFirstDateIntended()
    ensures RunIntended([Watched(0), Watched(40 * HourMs), Watched(41 * HourMs)], 3)
         == Run(2, 2, [Watched(40 * HourMs), Watched(41 * HourMs)])
  {
  }
}
