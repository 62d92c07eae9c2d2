/** The two computations of the loading page
    (`frontend/src/pages/SampleLoadingPage.js`): joining the configured API
    base with a route path, and the progress percentage shown while the
    backend works through the history. */
module SampleLoading {
  import opened Wrappers

  // ---------------------------------------------------------------- apiUrl

  predicate EndsWithSlash(s: string) {
    |s| > 0 && s[|s| - 1] == '/'
  }

  predicate StartsWithSlash(s: string) {
    |s| > 0 && s[0] == '/'
  }

  /** `replace(/\/$/, "")`: the pattern is anchored at the end of the input
      and has no repetition, so it drops one final `/` and no more. */
  function DropTrailingSlash(b: string): (r: string)
    ensures EndsWithSlash(b) ==> r + "/" == b
    ensures !EndsWithSlash(b) ==> r == b
  {
    if EndsWithSlash(b) then b[..|b| - 1] else b
  }

  /** The path, given a leading `/` when it lacks one. */
  function RootedPath(path: string): (r: string)
    ensures StartsWithSlash(r)
    ensures StartsWithSlash(path) <==> r == path
    ensures !StartsWithSlash(path) ==> r == "/" + path
  {
    if StartsWithSlash(path) then path else "/" + path
  }

  /** `apiUrl(base, path)`; a missing base is `None`. With no base left
      after the slash is dropped the result is the rooted path alone, a
      relative URL; otherwise it is the base followed by that path. */
  function ApiUrl(base: Option<string>, path: string): (r: string)
    ensures var b := DropTrailingSlash(base.GetOr(""));
            (b == "" ==> r == RootedPath(path)) && r == b + RootedPath(path)
  {
    var b := DropTrailingSlash(base.GetOr(""));
    var p := RootedPath(path);
    if b != "" then b + p else p
  }

  /** The URL is the base, less at most one final `/`, then `/`, then the
      path less at most one leading `/`; the path always ends the URL. */
  lemma ApiUrlParts(base: Option<string>, path: string)
    ensures var r := ApiUrl(base, path);
            var full := base.GetOr("");
            exists b :: (b == full || b + "/" == full) && r[..|b|] == b
              && |r| == |b| + |RootedPath(path)|
              && r[|b|] == '/'
              && (r[|b|..] == path || r[|b| + 1..] == path)
  {
    var b := DropTrailingSlash(base.GetOr(""));
    var r := ApiUrl(base, path);
    assert r == b + RootedPath(path);
    assert r[..|b|] == b;
    assert r[|b|..] == RootedPath(path);
  }

  /** A base with or without its final `/` names the same endpoint. */
  lemma ApiUrlSlashInsensitive(base: string, path: string)
    requires !EndsWithSlash(base)
    ensures ApiUrl(Some(base + "/"), path) == ApiUrl(Some(base), path)
  {
    assert (base + "/")[..|base|] == base;
  }

  /** Only one `/` is dropped: a base ending in `//` keeps one of them, and
      the rooted path adds another. */
  lemma ApiUrlDoubleSlash()
    ensures ApiUrl(Some("http://h//"), "api/x") == "http://h//api/x"
  {
    assert DropTrailingSlash("http://h//") == "http://h/";
  }

  // ------------------------------------------------------------------- pct

  /** `Math.round`: the nearest integer, halves rounded up. */
  function Round(x: real): (r: int)
    ensures x - 0.5 < r as real <= x + 0.5
  {
    (x + 0.5).Floor
  }

  /** `pct`: `current` of `total` as a whole percentage clamped to
      [0, 100]; 0 while `total` is missing or 0. Missing counts are `None`. */
  function Pct(total: Option<int>, current: Option<int>): (r: int)
    ensures 0 <= r <= 100
    ensures total.GetOr(0) == 0 ==> r == 0
  {
    var t := total.GetOr(0);
    var c := current.GetOr(0);
    if t == 0 then 0
    else
      var q := Round(c as real / t as real * 100.0);
      if q < 0 then 0 else if q > 100 then 100 else q
  }

  /** Within the job's bounds the percentage is the rounded share, with
      nothing to clamp. */
  lemma {:induction false} PctInRangeIsRoundedShare(total: int, current: int)
    requires 0 <= current <= total && total > 0
    ensures Pct(Some(total), Some(current)) == Round(current as real / total as real * 100.0)
  {
    var x := current as real / total as real;
    assert 0.0 <= x <= 1.0 by {
      assert current as real <= total as real;
    }
  }

  /** A finished job shows 100 and a job not yet started 0. */
  lemma PctEnds(total: int)
    requires total > 0
    ensures Pct(Some(total), Some(total)) == 100
    ensures Pct(Some(total), Some(0)) == 0
    ensures Pct(Some(total), None) == 0
  {
    assert total as real / total as real == 1.0;
  }

  /** The bar never moves back as the job advances. */
  lemma {:induction false} PctMonotone(total: int, c1: int, c2: int)
    requires total > 0 && c1 <= c2
    ensures Pct(Some(total), Some(c1)) <= Pct(Some(total), Some(c2))
  {
    var t := total as real;
    assert c1 as real / t <= c2 as real / t by {
      assert c1 as real <= c2 as real;
    }
  }
}
