/**
 * The few operations of Rust's `str` that the extractors and the URL
 * builders rely on: `trim`, `trim_matches`, `splitn(2, c)`, `split(c).next()`
 * and `join`.  Characters are Unicode scalar values, as in Rust.
 */
module RustStr {

  import opened Outcomes

  /** `char::is_whitespace`: the Unicode White_Space property. */
  predicate IsWhitespace(c: char) {
    ('\t' <= c <= '\r') || c == ' ' || c == '\U{0085}' || c == '\U{00A0}' || c == '\U{1680}'
    || ('\U{2000}' <= c <= '\U{200A}') || c == '\U{2028}' || c == '\U{2029}'
    || c == '\U{202F}' || c == '\U{205F}' || c == '\U{3000}'
  }

  /** Every character of `s` at a position in `lo..hi` is white space. */
  predicate WhitespaceIn(s: string, lo: int, hi: int) {
    forall i :: lo <= i < hi ==> 0 <= i < |s| && IsWhitespace(s[i])
  }

  /** Where the white space starting at `i` ends: the first later non-space, or the end of `s`. */
  function SkipWhitespace(s: string, i: nat): (n: nat)
    requires i <= |s|
    ensures i <= n <= |s| && WhitespaceIn(s, i, n)
    ensures n < |s| ==> !IsWhitespace(s[n])
    decreases |s| - i
  {
    if i < |s| && IsWhitespace(s[i]) then SkipWhitespace(s, i + 1) else i
  }

  /** Where the white space ending at `j` starts, looking no further back than `lo`. */
  function SkipWhitespaceBack(s: string, lo: nat, j: nat): (n: nat)
    requires lo <= j <= |s|
    ensures lo <= n <= j && WhitespaceIn(s, n, j)
    ensures n > lo ==> !IsWhitespace(s[n - 1])
    decreases j
  {
    if j > lo && IsWhitespace(s[j - 1]) then SkipWhitespaceBack(s, lo, j - 1) else j
  }

  /** `str::trim`: the slice of `s` left after removing white space at both ends. */
  function Trim(s: string): (r: string)
    ensures var k := SkipWhitespace(s, 0);
      k + |r| <= |s| && r == s[k..k + |r|] && WhitespaceIn(s, 0, k) && WhitespaceIn(s, k + |r|, |s|)
    ensures r != [] ==> !IsWhitespace(r[0]) && !IsWhitespace(r[|r| - 1])
  {
    var k := SkipWhitespace(s, 0);
    var e := SkipWhitespaceBack(s, k, |s|);
    assert e > k ==> s[k..e][0] == s[k] && s[k..e][e - k - 1] == s[e - 1];
    s[k..e]
  }

  /** Trimming once removes all there is to remove. */
  lemma TrimIdempotent(s: string)
    ensures Trim(Trim(s)) == Trim(s)
  {
    var t := Trim(s);
    if t != [] {
      assert SkipWhitespace(t, 0) == 0;
      assert SkipWhitespaceBack(t, 0, |t|) == |t|;
      assert t[0..|t|] == t;
    }
  }

  /** Trimming cannot bring in a character that was not there. */
  lemma TrimKeepsOut(s: string, c: char)
    requires c !in s
    ensures c !in Trim(s)
  {
    var k := SkipWhitespace(s, 0);
    var t := Trim(s);
    forall i | 0 <= i < |t| ensures t[i] != c {
      assert t[i] == s[k + i];
    }
  }

  /** Every character of `s` at a position in `lo..hi` is `c`. */
  predicate CharIn(s: string, c: char, lo: int, hi: int) {
    forall i :: lo <= i < hi ==> 0 <= i < |s| && s[i] == c
  }

  /** Where the run of `c` starting at `i` ends. */
  function SkipChar(s: string, c: char, i: nat): (n: nat)
    requires i <= |s|
    ensures i <= n <= |s| && CharIn(s, c, i, n)
    ensures n < |s| ==> s[n] != c
    decreases |s| - i
  {
    if i < |s| && s[i] == c then SkipChar(s, c, i + 1) else i
  }

  /** Where the run of `c` ending at `j` starts, looking no further back than `lo`. */
  function SkipCharBack(s: string, c: char, lo: nat, j: nat): (n: nat)
    requires lo <= j <= |s|
    ensures lo <= n <= j && CharIn(s, c, n, j)
    ensures n > lo ==> s[n - 1] != c
    decreases j
  {
    if j > lo && s[j - 1] == c then SkipCharBack(s, c, lo, j - 1) else j
  }

  /** `str::trim_matches(c)` for a single character: strips every leading and trailing `c`. */
  function TrimMatches(s: string, c: char): (r: string)
    ensures var k := SkipChar(s, c, 0);
      k + |r| <= |s| && r == s[k..k + |r|] && CharIn(s, c, 0, k) && CharIn(s, c, k + |r|, |s|)
    ensures r != [] ==> r[0] != c && r[|r| - 1] != c
  {
    var k := SkipChar(s, c, 0);
    var e := SkipCharBack(s, c, k, |s|);
    assert e > k ==> s[k..e][0] == s[k] && s[k..e][e - k - 1] == s[e - 1];
    s[k..e]
  }

  /** A string that neither starts nor ends with `c` is left as it is. */
  lemma TrimMatchesFixed(s: string, c: char)
    requires s != [] ==> s[0] != c && s[|s| - 1] != c
    ensures TrimMatches(s, c) == s
  {
    if s != [] {
      assert SkipChar(s, c, 0) == 0;
      assert SkipCharBack(s, c, 0, |s|) == |s|;
    }
    assert s[0..|s|] == s;
  }

  /** The position of the first `c` in `s`, if any. */
  function IndexOf(s: string, c: char): (r: Option<nat>)
    ensures r.None? <==> c !in s
    ensures r.Some? ==> r.value < |s| && s[r.value] == c && c !in s[..r.value]
  {
    if s == [] then None
    else if s[0] == c then Some(0)
    else
      match IndexOf(s[1..], c)
      case None => None
      case Some(k) =>
        assert s[..k + 1] == [s[0]] + s[1..][..k];
        Some(k + 1)
  }

  /** The position of the last `c` in `s`, if any (what `rsplitn(2, c)` splits at). */
  function LastIndexOf(s: string, c: char): (r: Option<nat>)
    ensures r.None? <==> c !in s
    ensures r.Some? ==> r.value < |s| && s[r.value] == c && c !in s[r.value + 1..]
    decreases |s|
  {
    if s == [] then None
    else if s[|s| - 1] == c then Some(|s| - 1)
    else
      match LastIndexOf(s[..|s| - 1], c)
      case None => None
      case Some(k) =>
        assert s[k + 1..] == s[..|s| - 1][k + 1..] + [s[|s| - 1]];
        Some(k)
  }

  /**
   * `s.splitn(2, c)`: the whole string when `c` does not occur, otherwise the
   * parts before and after the first `c`.
   */
  function SplitOnce(s: string, c: char): (r: seq<string>)
    ensures |r| == 1 || |r| == 2
    ensures |r| == 1 <==> c !in s
    ensures |r| == 1 ==> r[0] == s
    ensures |r| == 2 ==> s == r[0] + [c] + r[1] && c !in r[0]
  {
    match IndexOf(s, c)
    case None => [s]
    case Some(k) =>
      assert s == s[..k] + [c] + s[k + 1..];
      [s[..k], s[k + 1..]]
  }

  /** `s.split(c).next().unwrap()`: everything before the first `c` (all of `s` when there is none). */
  function BeforeFirst(s: string, c: char): (r: string)
    ensures c !in r
    ensures r <= s
    ensures r == s || s[|r|] == c
  {
    match IndexOf(s, c)
    case None => s
    case Some(k) => s[..k]
  }

  /** `parts.join(sep)` for a one-character separator. */
  function Join(parts: seq<string>, sep: char): (r: string)
    ensures parts == [] ==> r == []
    ensures |parts| == 1 ==> r == parts[0]
  {
    if parts == [] then []
    else if |parts| == 1 then parts[0]
    else parts[0] + [sep] + Join(parts[1..], sep)
  }

  /** `s.split(sep)` collected: the pieces between the separators, in order. */
  function Split(s: string, sep: char): (r: seq<string>)
    ensures |r| >= 1
    ensures forall i :: 0 <= i < |r| ==> sep !in r[i]
    decreases |s|
  {
    match IndexOf(s, sep)
    case None => [s]
    case Some(k) => [s[..k]] + Split(s[k + 1..], sep)
  }

  /** Splitting what `Join` produced gives the parts back when none of them holds the separator. */
  lemma {:induction false} SplitJoin(parts: seq<string>, sep: char)
    requires parts != []
    requires forall i :: 0 <= i < |parts| ==> sep !in parts[i]
    ensures Split(Join(parts, sep), sep) == parts
  {
    if |parts| > 1 {
      var s := Join(parts, sep);
      var k := |parts[0]|;
      assert s[..k] == parts[0];
      assert s[k] == sep;
      assert IndexOf(s, sep) == Some(k) by {
        assert sep in s[..k + 1];
      }
      assert s[k + 1..] == Join(parts[1..], sep);
      SplitJoin(parts[1..], sep);
    }
  }
}
