/** The JavaScript string operations the title normaliser and the resolver use:
    `trim`, the regex class `\s`, `toLowerCase` (on ASCII letters), `indexOf`,
    `lastIndexOf`, `split`/`join` on a one-character separator, `replaceAll`
    and character filtering (`replace` with a negated character class). */
module Strings {

  /** The characters ECMA-262 counts as WhiteSpace or LineTerminator: the set that
      `String.prototype.trim` removes and that the regex class `\s` matches. */
  predicate IsSpace(c: char) {
    c == ' ' || c == '\t' || c == '\n' || c == '\U{000B}' || c == '\U{000C}' || c == '\r' ||
    c == '\U{00A0}' || c == '\U{1680}' || ('\U{2000}' <= c <= '\U{200A}') ||
    c == '\U{2028}' || c == '\U{2029}' || c == '\U{202F}' || c == '\U{205F}' ||
    c == '\U{3000}' || c == '\U{FEFF}'
  }

  predicate IsAsciiUpper(c: char) { 'A' <= c <= 'Z' }
  predicate IsAsciiLower(c: char) { 'a' <= c <= 'z' }
  predicate IsDigit(c: char) { '0' <= c <= '9' }

  /** The characters `[a-z0-9]` matches under the `i` flag: ASCII letters and digits. */
  predicate IsAsciiAlnum(c: char) { IsAsciiUpper(c) || IsAsciiLower(c) || IsDigit(c) }

  function LowerChar(c: char): (r: char)
    ensures !IsAsciiUpper(r)
    ensures IsAsciiAlnum(r) <==> IsAsciiAlnum(c)
    ensures IsSpace(r) <==> IsSpace(c)
    ensures !IsAsciiUpper(c) ==> r == c
  {
    if IsAsciiUpper(c) then (c as int + 32) as char else c
  }

  /** `toLowerCase`, restricted to the ASCII letters (see README). */
  function Lower(s: string): (r: string)
    ensures |r| == |s|
    ensures forall i | 0 <= i < |s| :: r[i] == LowerChar(s[i])
  {
    seq(|s|, i requires 0 <= i < |s| => LowerChar(s[i]))
  }

  lemma LowerSlice(s: string, a: nat, b: nat)
    requires a <= b <= |s|
    ensures Lower(s[a..b]) == Lower(s)[a..b]
  {
  }

  lemma LowerIdempotent(s: string)
    ensures Lower(Lower(s)) == Lower(s)
  {
  }

  // ---------------------------------------------------------------- trim

  /** No whitespace at either end: what `trim` returns. */
  predicate IsTrimmed(s: string) {
    |s| == 0 || (!IsSpace(s[0]) && !IsSpace(s[|s| - 1]))
  }

  /** The index of the first character at or after `i` that is not white space
      (`|s|` when there is none). */
  function TrimLeft(s: string, i: nat): (r: nat)
    requires i <= |s|
    ensures i <= r <= |s| && (r == |s| || !IsSpace(s[r]))
    ensures forall k | i <= k < r :: IsSpace(s[k])
    decreases |s| - i
  {
    if i < |s| && IsSpace(s[i]) then TrimLeft(s, i + 1) else i
  }

  /** One past the last character before `j`, and not before `lo`, that is not white
      space (`lo` when there is none). */
  function TrimRight(s: string, lo: nat, j: nat): (r: nat)
    requires lo <= j <= |s|
    ensures lo <= r <= j && (r == lo || !IsSpace(s[r - 1]))
    ensures forall k | r <= k < j :: IsSpace(s[k])
    decreases j
  {
    if j > lo && IsSpace(s[j - 1]) then TrimRight(s, lo, j - 1) else j
  }

  /** `String.prototype.trim`. */
  function Trim(s: string): (r: string)
    ensures IsTrimmed(r)
    ensures |r| <= |s|
    ensures IsTrimmed(s) ==> r == s
  {
    var a := TrimLeft(s, 0);
    s[a..TrimRight(s, a, |s|)]
  }

  lemma TrimIdempotent(s: string)
    ensures Trim(Trim(s)) == Trim(s)
  {
  }

  /** Every character of `Trim(s)` comes from `s`, in one contiguous piece. */
  lemma TrimIsSlice(s: string) returns (a: nat, b: nat)
    ensures a <= b <= |s| && Trim(s) == s[a..b]
    ensures forall i | 0 <= i < a :: IsSpace(s[i])
    ensures forall i | b <= i < |s| :: IsSpace(s[i])
  {
    a := TrimLeft(s, 0);
    b := TrimRight(s, a, |s|);
  }

  /** Trimming adds no character. */
  lemma TrimAbsent(s: string, c: char)
    requires c !in s
    ensures c !in Trim(s)
  {
    var a, b := TrimIsSlice(s);
    assert forall i | 0 <= i < b - a :: Trim(s)[i] == s[a + i];
  }

  /** `s.trim()` is empty exactly when `s` is all white space. */
  lemma TrimEmpty(s: string)
    ensures |Trim(s)| == 0 <==> forall i | 0 <= i < |s| :: IsSpace(s[i])
  {
    var a := TrimLeft(s, 0);
    if a < |s| {
      assert TrimRight(s, a, |s|) > a;
    }
  }

  // ---------------------------------------------------------------- search

  /** `pat` occurs in `s` starting at index `i`. */
  predicate HasAt(s: string, pat: string, i: int) {
    0 <= i && i + |pat| <= |s| && s[i..i + |pat|] == pat
  }

  function IndexFrom(s: string, pat: string, from: nat): (r: int)
    requires from <= |s|
    ensures r == -1 || (from <= r <= |s| && HasAt(s, pat, r))
    ensures forall i | from <= i && (r == -1 || i < r) :: !HasAt(s, pat, i)
    decreases |s| - from
  {
    if HasAt(s, pat, from) then from
    else if from == |s| then -1
    else IndexFrom(s, pat, from + 1)
  }

  /** `s.indexOf(pat)`: the first index where `pat` occurs, or -1. */
  function IndexOf(s: string, pat: string): (r: int)
    ensures r >= 0 ==> r <= |s| && HasAt(s, pat, r)
    ensures r < 0 ==> r == -1
    ensures forall i | 0 <= i && (r == -1 || i < r) :: !HasAt(s, pat, i)
  {
    IndexFrom(s, pat, 0)
  }

  /** `s.includes(pat)`. */
  predicate Includes(s: string, pat: string) {
    IndexOf(s, pat) >= 0
  }

  /** A pattern that occurs nowhere inside `s[a..b]` is not found in the slice. */
  lemma NoMatchBetween(s: string, pat: string, a: nat, b: nat)
    requires a <= b <= |s|
    requires forall i | a <= i && i + |pat| <= b :: !HasAt(s, pat, i)
    ensures IndexOf(s[a..b], pat) == -1
  {
    var t := s[a..b];
    forall i | HasAt(t, pat, i) ensures HasAt(s, pat, a + i) {
      forall k | 0 <= k < |pat| ensures s[a + i + k] == pat[k] {
        assert t[i..i + |pat|][k] == pat[k];
      }
      assert s[a + i..a + i + |pat|] == pat;
    }
  }

  /** A pattern that occurs nowhere in `s` occurs nowhere in a slice of `s`. */
  lemma NoMatchInSlice(s: string, pat: string, a: nat, b: nat)
    requires a <= b <= |s|
    requires IndexOf(s, pat) == -1
    ensures IndexOf(s[a..b], pat) == -1
  {
    NoMatchBetween(s, pat, a, b);
  }

  lemma NoMatchAfterTrim(s: string, pat: string)
    requires IndexOf(s, pat) == -1
    ensures IndexOf(Trim(s), pat) == -1
  {
    var a, b := TrimIsSlice(s);
    NoMatchInSlice(s, pat, a, b);
  }

  /** `s.indexOf(c)` for a one-character string `c`. */
  function Find(s: string, c: char): (r: int)
    ensures -1 <= r < |s|
    ensures r == -1 <==> c !in s
    ensures r >= 0 ==> r < |s| && s[r] == c && c !in s[..r]
    decreases |s|
  {
    if |s| == 0 then -1
    else if s[0] == c then 0
    else
      var k := Find(s[1..], c);
      assert s == [s[0]] + s[1..];
      if k < 0 then -1
      else
        assert s[..k + 1] == [s[0]] + s[1..][..k];
        k + 1
  }

  lemma FindIsIndexOf(s: string, c: char)
    ensures Find(s, c) == IndexOf(s, [c])
  {
    var r := IndexOf(s, [c]);
    forall i | 0 <= i < |s| ensures HasAt(s, [c], i) <==> s[i] == c {
      assert s[i..i + 1] == [s[i]];
    }
    if r >= 0 {
      forall i | 0 <= i < r ensures s[..r][i] != c {
        assert !HasAt(s, [c], i);
      }
    }
  }

  /** `s.lastIndexOf(c)` for a one-character string `c`. */
  function LastFind(s: string, c: char): (r: int)
    ensures -1 <= r < |s|
    ensures r == -1 <==> c !in s
    ensures r >= 0 ==> r < |s| && s[r] == c && c !in s[r + 1..]
    decreases |s|
  {
    if |s| == 0 then -1
    else if s[|s| - 1] == c then |s| - 1
    else
      var k := LastFind(s[..|s| - 1], c);
      assert s[..|s| - 1] + [s[|s| - 1]] == s;
      assert k >= 0 ==> s[k + 1..] == s[..|s| - 1][k + 1..] + [s[|s| - 1]];
      k
  }

  // ---------------------------------------------------------------- split and join

  /** `s.split(c)` for a one-character string `c`: never empty, and no piece
      holds the separator. */
  function Split(s: string, c: char): (r: seq<string>)
    ensures |r| >= 1
    ensures forall k | 0 <= k < |r| :: c !in r[k]
    ensures c !in s ==> r == [s]
    decreases |s|
  {
    var i := Find(s, c);
    if i < 0 then [s] else [s[..i]] + Split(s[i + 1..], c)
  }

  /** `parts.join(sep)`. */
  function Join(parts: seq<string>, sep: string): string
    decreases |parts|
  {
    if |parts| == 0 then ""
    else if |parts| == 1 then parts[0]
    else parts[0] + sep + Join(parts[1..], sep)
  }

  /** `parts.join("")`. */
  function Concat(parts: seq<string>): string {
    Join(parts, "")
  }

  function DropLast<T>(s: seq<T>): seq<T> {
    if |s| == 0 then [] else s[..|s| - 1]
  }

  lemma JoinCons(p: string, r: seq<string>, sep: string)
    requires |r| >= 1
    ensures Join([p] + r, sep) == p + sep + Join(r, sep)
  {
    assert ([p] + r)[1..] == r;
  }

  /** One step of `Split`: the piece before the first `c`, then the rest split. */
  lemma SplitStep(s: string, c: char) returns (i: nat)
    requires c in s
    ensures i < |s| && s[i] == c && c !in s[..i]
    ensures Split(s, c) == [s[..i]] + Split(s[i + 1..], c)
    ensures s == s[..i] + [c] + s[i + 1..]
  {
    i := Find(s, c);
    AroundIndex(s, i);
  }

  /** A string holding `c` splits into at least two pieces. */
  lemma SplitTwo(s: string, c: char)
    requires c in s
    ensures |Split(s, c)| >= 2
  {
    var _ := SplitStep(s, c);
  }

  lemma AroundIndex(s: string, i: nat)
    requires i < |s|
    ensures s == s[..i] + [s[i]] + s[i + 1..]
  {
    assert s[i..] == [s[i]] + s[i + 1..];
    assert s == s[..i] + s[i..];
  }

  lemma {:induction false} JoinSplit(s: string, c: char)
    ensures Join(Split(s, c), [c]) == s
    decreases |s|
  {
    if c in s {
      var i := SplitStep(s, c);
      var rest := s[i + 1..];
      JoinSplit(rest, c);
      JoinCons(s[..i], Split(rest, c), [c]);
    }
  }

  /** Splitting at `c`, dropping the last piece and joining back with `c` keeps
      exactly the text before the last `c`; when `s` has no `c` nothing is kept. */
  lemma {:induction false} JoinDropLastSplit(s: string, c: char)
    ensures Join(DropLast(Split(s, c)), [c]) == if c in s then s[..LastFind(s, c)] else ""
    decreases |s|
  {
    if c in s {
      var i := SplitStep(s, c);
      var rest := s[i + 1..];
      JoinDropLastSplit(rest, c);
      if c in rest {
        DropLastMany(s, i, c);
      } else {
        assert Split(rest, c) == [rest];
        assert DropLast(Split(s, c)) == [s[..i]];
        LastFindFirst(s, i, c);
      }
    }
  }

  lemma DropLastMany(s: string, i: nat, c: char)
    requires i < |s| && s[i] == c && c in s[i + 1..]
    requires Split(s, c) == [s[..i]] + Split(s[i + 1..], c)
    requires Join(DropLast(Split(s[i + 1..], c)), [c]) == s[i + 1..][..LastFind(s[i + 1..], c)]
    ensures Join(DropLast(Split(s, c)), [c]) == s[..LastFind(s, c)]
  {
    var rest := s[i + 1..];
    SplitTwo(rest, c);
    var j := LastFind(rest, c);
    LastFindShift(s, i, j, c);
    DropLastConsJoin(s[..i], Split(rest, c), c);
    Splice(s, i, j, c, Join(DropLast(Split(s, c)), [c]), Join(DropLast(Split(rest, c)), [c]));
  }

  /** The text before index `i`, the `c` at `i`, then the first `j` characters after
      it make up the first `i + 1 + j` characters. */
  lemma Splice(s: string, i: nat, j: nat, c: char, joined: string, tail: string)
    requires i + 1 + j <= |s| && s[i] == c
    requires joined == s[..i] + [c] + tail && tail == s[i + 1..][..j]
    ensures joined == s[..i + 1 + j]
  {
    PrefixAcross(s, i, j);
  }

  lemma DropLastConsJoin(p: string, r: seq<string>, c: char)
    requires |r| >= 2
    ensures Join(DropLast([p] + r), [c]) == p + [c] + Join(DropLast(r), [c])
  {
    assert DropLast([p] + r) == [p] + DropLast(r);
    JoinCons(p, DropLast(r), [c]);
  }

  lemma PrefixAcross(s: string, i: nat, j: nat)
    requires i + 1 + j <= |s|
    ensures s[..i] + [s[i]] + s[i + 1..][..j] == s[..i + 1 + j]
  {
  }

  /** The characters after index `i` are exactly the slice `s[i + 1..]`. */
  lemma NotAfter(s: string, i: int, c: char)
    requires -1 <= i < |s| && c !in s[i + 1..]
    ensures forall k | i < k < |s| :: s[k] != c
  {
    forall k | i < k < |s| ensures s[k] != c {
      assert s[k] == s[i + 1..][k - i - 1];
    }
  }

  lemma LastFindShift(s: string, i: nat, j: nat, c: char)
    requires i < |s| && j < |s| - i - 1
    requires s[i + 1..][j] == c && c !in s[i + 1..][j + 1..]
    ensures LastFind(s, c) == i + 1 + j
  {
    var l := LastFind(s, c);
    assert s[i + 1 + j + 1..] == s[i + 1..][j + 1..];
    NotAfter(s, i + 1 + j, c);
    NotAfter(s, l, c);
  }

  lemma LastFindFirst(s: string, i: nat, c: char)
    requires i < |s| && s[i] == c && c !in s[i + 1..]
    ensures LastFind(s, c) == i
  {
    NotAfter(s, i, c);
    NotAfter(s, LastFind(s, c), c);
  }

  /** `s.replaceAll(c, rep)` for a one-character string `c`. */
  function ReplaceAll(s: string, c: char, rep: string): (r: string)
    ensures c !in rep ==> c !in r
    ensures c !in s ==> r == s
  {
    if |s| == 0 then ""
    else (if s[0] == c then rep else [s[0]]) + ReplaceAll(s[1..], c, rep)
  }

  /** Replacing `c` neither adds nor removes any other character absent from `rep`. */
  lemma {:induction false} ReplaceAllKeeps(s: string, c: char, rep: string, d: char)
    requires d != c && d !in rep
    ensures d in ReplaceAll(s, c, rep) <==> d in s
    decreases |s|
  {
    if |s| > 0 {
      ReplaceAllKeeps(s[1..], c, rep, d);
      assert s == [s[0]] + s[1..];
    }
  }

  /** The text before the first `d` is the same whether `c` is replaced before or
      after cutting there. */
  lemma {:induction false} ReplaceAllBefore(s: string, c: char, rep: string, d: char)
    requires d != c && d !in rep && d in s
    ensures var u := ReplaceAll(s, c, rep);
      d in u && u[..Find(u, d)] == ReplaceAll(s[..Find(s, d)], c, rep)
    decreases |s|
  {
    ReplaceAllKeeps(s, c, rep, d);
    HeadTail(s);
    var u := ReplaceAll(s, c, rep);
    var p := if s[0] == c then rep else [s[0]];
    var x := ReplaceAll(s[1..], c, rep);
    ReplaceAllCons(s[0], s[1..], c, rep);
    if s[0] == d {
      FindUnique(u, d, 0);
      assert s[..Find(s, d)] == "";
    } else {
      var y := s[1..][..Find(s[1..], d)];
      ReplaceAllBefore(s[1..], c, rep, d);
      FindAfter(p, x, d);
      FindAfter([s[0]], s[1..], d);
      ReplaceAllCons(s[0], y, c, rep);
    }
  }

  lemma ReplaceAllCons(h: char, t: string, c: char, rep: string)
    ensures ReplaceAll([h] + t, c, rep) == (if h == c then rep else [h]) + ReplaceAll(t, c, rep)
  {
    assert ([h] + t)[1..] == t;
  }

  /** A prefix without `c` shifts the first `c` by its length. */
  lemma FindAfter(p: string, x: string, c: char)
    requires c !in p && c in x
    ensures Find(p + x, c) == |p| + Find(x, c)
    ensures (p + x)[..|p| + Find(x, c)] == p + x[..Find(x, c)]
  {
    var f := Find(x, c);
    assert (p + x)[..|p| + f] == p + x[..f];
    FindUnique(p + x, c, |p| + f);
  }

  /** The first occurrence is the only position with `c` and no `c` before it. */
  lemma FindUnique(s: string, c: char, i: nat)
    requires i < |s| && s[i] == c && c !in s[..i]
    ensures Find(s, c) == i
  {
    forall j | 0 <= j < i ensures s[j] != c {
      assert s[..i][j] == s[j];
    }
  }

  lemma HeadTail<T>(s: seq<T>)
    requires |s| > 0
    ensures s == [s[0]] + s[1..]
  {
  }

  /** `s.replaceAll(/[^...]/g, "")`: keeps exactly the characters `keep` accepts,
      each as often as it occurs in `s`, in their original order. */
  function Filter(s: string, keep: char -> bool): (r: string)
    ensures forall i | 0 <= i < |r| :: keep(r[i])
    ensures (forall i | 0 <= i < |s| :: keep(s[i])) ==> r == s
    decreases |s|
  {
    if |s| == 0 then ""
    else
      HeadTail(s);
      (if keep(s[0]) then [s[0]] else []) + Filter(s[1..], keep)
  }

  lemma {:induction false} FilterAppend(a: string, b: string, keep: char -> bool)
    ensures Filter(a + b, keep) == Filter(a, keep) + Filter(b, keep)
    decreases |a|
  {
    if |a| > 0 {
      assert (a + b)[1..] == a[1..] + b;
      FilterAppend(a[1..], b, keep);
    } else {
      assert a + b == b;
    }
  }

  /** Filtering drops a piece none of whose characters is kept. */
  lemma {:induction false} FilterNone(s: string, keep: char -> bool)
    requires forall i | 0 <= i < |s| :: !keep(s[i])
    ensures Filter(s, keep) == ""
    decreases |s|
  {
    if |s| > 0 {
      FilterNone(s[1..], keep);
    }
  }

  /** Each kept character occurs as often in the filtered string as in `s`; no other
      character occurs in it. */
  lemma {:induction false} FilterCounts(s: string, keep: char -> bool)
    ensures forall x | keep(x) :: multiset(Filter(s, keep))[x] == multiset(s)[x]
    ensures forall x | !keep(x) :: multiset(Filter(s, keep))[x] == 0
    decreases |s|
  {
    if |s| > 0 {
      FilterCounts(s[1..], keep);
      HeadTail(s);
    }
  }

  /** When no white space is kept, trimming before filtering changes nothing. */
  lemma FilterTrim(s: string, keep: char -> bool)
    requires forall c | IsSpace(c) :: !keep(c)
    ensures Filter(Trim(s), keep) == Filter(s, keep)
  {
    var a, b := TrimIsSlice(s);
    ThreePieces(s, a, b);
    FilterAround(s[..a], s[a..b], s[b..], keep);
  }

  lemma ThreePieces<T>(s: seq<T>, a: nat, b: nat)
    requires a <= b <= |s|
    ensures s == s[..a] + s[a..b] + s[b..]
  {
  }

  /** Pieces with no kept character on either side of `m` filter to nothing. */
  lemma FilterAround(x: string, m: string, y: string, keep: char -> bool)
    requires forall i | 0 <= i < |x| :: !keep(x[i])
    requires forall i | 0 <= i < |y| :: !keep(y[i])
    ensures Filter(x + m + y, keep) == Filter(m, keep)
  {
    FilterAppend(x + m, y, keep);
    FilterAppend(x, m, keep);
    FilterNone(x, keep);
    FilterNone(y, keep);
  }

  /** Every character of the filtered string is a character of `s`. */
  lemma FilterFrom(s: string, keep: char -> bool, i: nat)
    requires i < |Filter(s, keep)|
    ensures Filter(s, keep)[i] in s
  {
    var r := Filter(s, keep);
    FilterCounts(s, keep);
    assert r[i] in multiset(r);
  }

  lemma FilterIdempotent(s: string, keep: char -> bool)
    ensures Filter(Filter(s, keep), keep) == Filter(s, keep)
  {
  }
}
