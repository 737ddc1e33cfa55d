/** The handful of Python `str` operations the extractor and composer rely on,
    with the contracts that pin down their Python meaning. */
module PyStr {
  import opened Wrappers

  /** Python's `str.isspace()` for one character (also what `\s` matches in `re`). */
  predicate IsSpace(c: char) {
    c == ' ' || c == '\t' || c == '\n' || c == '\r' || c == '\U{B}' || c == '\U{C}'
    || ('\U{1C}' <= c <= '\U{1F}') || c == '\U{85}' || c == '\U{A0}' || c == '\U{1680}'
    || ('\U{2000}' <= c <= '\U{200A}') || c == '\U{2028}' || c == '\U{2029}'
    || c == '\U{202F}' || c == '\U{205F}' || c == '\U{3000}'
  }

  /** What `\d` matches (ASCII digits only, see README). */
  predicate IsDigit(c: char) {
    '0' <= c <= '9'
  }

  predicate AllSpace(s: string) {
    forall k :: 0 <= k < |s| ==> IsSpace(s[k])
  }

  predicate AllDigits(s: string) {
    forall k :: 0 <= k < |s| ==> IsDigit(s[k])
  }

  /** No leading and no trailing whitespace: what `str.strip()` guarantees. */
  predicate IsStripped(s: string) {
    s == [] || (!IsSpace(s[0]) && !IsSpace(s[|s| - 1]))
  }

  // ---------------------------------------------------------------------------
  // strip

  /** `str.lstrip()`: drops the maximal leading whitespace run. */
  function TrimStart(s: string): (r: string)
    ensures |r| <= |s| && r == s[|s| - |r|..]
    ensures forall k :: 0 <= k < |s| - |r| ==> IsSpace(s[k])
    ensures r == [] || !IsSpace(r[0])
  {
    if |s| > 0 && IsSpace(s[0]) then
      var r := TrimStart(s[1..]);
      assert forall k :: 1 <= k < |s| - |r| ==> s[k] == s[1..][k - 1];
      r
    else s
  }

  /** `str.rstrip()`: drops the maximal trailing whitespace run. */
  function TrimEnd(s: string): (r: string)
    ensures |r| <= |s| && r == s[..|r|]
    ensures forall k :: |r| <= k < |s| ==> IsSpace(s[k])
    ensures r == [] || !IsSpace(r[|r| - 1])
  {
    if |s| > 0 && IsSpace(s[|s| - 1]) then
      var r := TrimEnd(s[..|s| - 1]);
      assert forall k :: |r| <= k < |s| - 1 ==> s[k] == s[..|s| - 1][k];
      r
    else s
  }

  /** `str.strip()`. */
  function Strip(s: string): (r: string)
    ensures IsStripped(r)
  {
    TrimEnd(TrimStart(s))
  }

  /** What `TrimStart` cuts off is a whitespace run. */
  lemma TrimStartSplit(s: string)
    ensures AllSpace(s[..|s| - |TrimStart(s)|])
  {
    var t := TrimStart(s);
    var w := s[..|s| - |t|];
    forall k | 0 <= k < |w| ensures IsSpace(w[k]) {
      assert w[k] == s[k];
    }
  }

  /** What `TrimEnd` cuts off is a whitespace run. */
  lemma TrimEndSplit(s: string)
    ensures AllSpace(s[|TrimEnd(s)|..])
  {
    var t := TrimEnd(s);
    var w := s[|t|..];
    forall k | 0 <= k < |w| ensures IsSpace(w[k]) {
      assert w[k] == s[|t| + k];
    }
  }

  /** `Strip` only removes whitespace, and only at the two ends: `s` is its
      result with whitespace runs around it. */
  lemma StripRemovesOnlyOuterSpace(s: string) returns (a: string, b: string)
    ensures AllSpace(a) && AllSpace(b) && s == a + Strip(s) + b
  {
    var t := TrimStart(s);
    var r := TrimEnd(t);
    TrimStartSplit(s);
    TrimEndSplit(t);
    a, b := s[..|s| - |t|], t[|r|..];
    assert s == a + s[|a|..];
    assert t == r + b;
    AppendAssoc(a, r, b);
  }

  lemma AppendAssoc<T>(x: seq<T>, y: seq<T>, z: seq<T>)
    ensures x + (y + z) == x + y + z
  {
  }

  /** A leading whitespace run followed by a non-space start is exactly what
      `TrimStart` removes. */
  lemma {:induction false} TrimStartAfterSpaces(w: string, x: string)
    requires AllSpace(w)
    requires x == [] || !IsSpace(x[0])
    ensures TrimStart(w + x) == x
  {
    if w != [] {
      assert (w + x)[1..] == w[1..] + x;
      TrimStartAfterSpaces(w[1..], x);
    }
  }

  lemma {:induction false} TrimEndBeforeSpaces(x: string, w: string)
    requires AllSpace(w)
    requires x == [] || !IsSpace(x[|x| - 1])
    ensures TrimEnd(x + w) == x
  {
    if w != [] {
      assert (x + w)[..|x + w| - 1] == x + w[..|w| - 1];
      TrimEndBeforeSpaces(x, w[..|w| - 1]);
    }
  }

  /** A string strips to nothing exactly when it is all whitespace. */
  lemma StripEmptyIff(s: string)
    ensures Strip(s) == [] <==> AllSpace(s)
  {
    if AllSpace(s) {
      TrimStartAfterSpaces(s, []);
      assert s + [] == s;
    }
  }

  /** Stripping is idempotent, and a stripped string is left unchanged. */
  lemma StripOfStripped(s: string)
    requires IsStripped(s)
    ensures Strip(s) == s
  {
    TrimStartAfterSpaces([], s);
    TrimEndBeforeSpaces(s, []);
    assert [] + s == s && s + [] == s;
  }

  lemma StripIdempotent(s: string)
    ensures Strip(Strip(s)) == Strip(s)
  {
    StripOfStripped(Strip(s));
  }

  // ---------------------------------------------------------------------------
  // substring search, `in`, `startswith`

  predicate OccursAt(s: string, pat: string, m: int) {
    0 <= m && m + |pat| <= |s| && s[m..m + |pat|] == pat
  }

  /** The first occurrence of `pat` in `s` at or after `k` (`str.find(pat, k)`). */
  function IndexFrom(s: string, pat: string, k: nat): (r: Option<nat>)
    decreases |s| - k
    ensures r.Some? ==> k <= r.value && OccursAt(s, pat, r.value)
                        && forall m :: k <= m < r.value ==> !OccursAt(s, pat, m)
    ensures r.None? ==> forall m :: k <= m ==> !OccursAt(s, pat, m)
  {
    if k + |pat| > |s| then None
    else if s[k..k + |pat|] == pat then Some(k)
    else IndexFrom(s, pat, k + 1)
  }

  function IndexOf(s: string, pat: string): Option<nat> {
    IndexFrom(s, pat, 0)
  }

  /** Python's `pat in s`. */
  predicate Contains(s: string, pat: string) {
    exists m :: 0 <= m <= |s| - |pat| && OccursAt(s, pat, m)
  }

  /** `str.find` succeeds exactly when the pattern occurs. */
  lemma IndexOfIffContains(s: string, pat: string)
    ensures IndexOf(s, pat).Some? <==> Contains(s, pat)
  {
    if IndexOf(s, pat).Some? {
      assert OccursAt(s, pat, IndexOf(s, pat).value);
    }
  }

  /** An occurrence in the middle part of `a + t + b` is an occurrence in the whole. */
  lemma ContainsInMiddle(a: string, t: string, b: string, pat: string)
    requires Contains(t, pat)
    ensures Contains(a + t + b, pat)
  {
    var m :| 0 <= m <= |t| - |pat| && OccursAt(t, pat, m);
    var u := a + t + b;
    assert u[|a| + m..|a| + m + |pat|] == t[m..m + |pat|];
    assert OccursAt(u, pat, |a| + m);
  }

  /** Python's `s.startswith(pre)`. */
  predicate StartsWith(s: string, pre: string) {
    pre <= s
  }

  /** An occurrence inside a prefix of `s` is an occurrence in `s`. */
  lemma OccursInPrefix(s: string, pat: string, k: nat, m: int)
    requires k <= |s|
    requires OccursAt(s[..k], pat, m)
    ensures OccursAt(s, pat, m)
  {
    assert s[..k][m..m + |pat|] == s[m..m + |pat|];
  }

  // ---------------------------------------------------------------------------
  // split and join

  /** `sep.join(parts)`. */
  function Join(parts: seq<string>, sep: string): string {
    if |parts| == 0 then ""
    else if |parts| == 1 then parts[0]
    else parts[0] + sep + Join(parts[1..], sep)
  }

  /** `s.split(sep)` for a non-empty separator: scan left to right, cut at each
      non-overlapping occurrence. */
  function Split(s: string, sep: string): (r: seq<string>)
    requires |sep| > 0
    decreases |s|
    ensures |r| >= 1
    ensures forall k :: 0 <= k < |r| ==> !Contains(r[k], sep)
  {
    match IndexOf(s, sep)
    case None =>
      IndexOfIffContains(s, sep);
      [s]
    case Some(k) =>
      NoneBeforeFirst(s, sep);
      [s[..k]] + Split(s[k + |sep|..], sep)
  }

  /** Joining the pieces of a split with the separator gives `s` back. */
  lemma {:induction false} SplitJoin(s: string, sep: string)
    requires |sep| > 0
    decreases |s|
    ensures Join(Split(s, sep), sep) == s
  {
    match IndexOf(s, sep)
    case None =>
    case Some(k) =>
      var tail := s[k + |sep|..];
      var rest := Split(tail, sep);
      SplitJoin(tail, sep);
      var r := Split(s, sep);
      assert r == [s[..k]] + rest;
      assert r[1..] == rest;
      assert Join(r, sep) == s[..k] + sep + Join(rest, sep);
      assert s[k..k + |sep|] == sep;
      ThreeSlices(s, k, k + |sep|);
  }

  lemma ThreeSlices<T>(s: seq<T>, i: nat, j: nat)
    requires i <= j <= |s|
    ensures s[..i] + s[i..j] + s[j..] == s
  {
  }

  /** The text before the first occurrence of `pat` holds no occurrence of it. */
  lemma NoneBeforeFirst(s: string, pat: string)
    requires |pat| > 0
    requires IndexOf(s, pat).Some?
    ensures !Contains(s[..IndexOf(s, pat).value], pat)
  {
    var k := IndexOf(s, pat).value;
    if Contains(s[..k], pat) {
      var m :| 0 <= m <= k - |pat| && OccursAt(s[..k], pat, m);
      OccursInPrefix(s, pat, k, m);
    }
  }

  function Last<T>(xs: seq<T>): T
    requires |xs| > 0
  {
    xs[|xs| - 1]
  }

  /** The first piece of a split is the text before the first occurrence of the
      separator (all of `s` when there is none): no occurrence starts inside it,
      even one that would overlap the separator after it. */
  lemma SplitFirst(s: string, sep: string)
    requires |sep| > 0
    ensures var f := Split(s, sep)[0];
            f <= s && !Contains(f, sep)
            && (Contains(s, sep) ==> OccursAt(s, sep, |f|))
            && (forall m :: 0 <= m < |f| ==> !OccursAt(s, sep, m))
            && (!Contains(s, sep) ==> f == s)
  {
    IndexOfIffContains(s, sep);
    if !Contains(s, sep) {
      assert forall m :: 0 <= m ==> !OccursAt(s, sep, m) by {
        assert IndexFrom(s, sep, 0).None?;
      }
    }
    if Contains(s, sep) {
      NoneBeforeFirst(s, sep);
    }
  }

  /** The last piece of a split is the text after the last cut: it has no
      separator in it, and either `s` had no separator at all and the piece is
      `s`, or `s` ends with the separator followed by the piece. */
  lemma SplitLast(s: string, sep: string)
    requires |sep| > 0
    ensures !Contains(Last(Split(s, sep)), sep)
    ensures !Contains(s, sep) ==> Last(Split(s, sep)) == s
    ensures Contains(s, sep) ==> |Last(Split(s, sep))| + |sep| <= |s|
                                 && s[|s| - |sep| - |Last(Split(s, sep))|..] == sep + Last(Split(s, sep))
  {
    IndexOfIffContains(s, sep);
    if Contains(s, sep) {
      SplitLastSuffix(s, sep);
    } else {
      assert Split(s, sep) == [s];
    }
  }

  /** The suffix part of `SplitLast`, by induction over the cuts. */
  lemma {:induction false} SplitLastSuffix(s: string, sep: string)
    requires |sep| > 0 && IndexOf(s, sep).Some?
    decreases |s|
    ensures |Last(Split(s, sep))| + |sep| <= |s|
            && s[|s| - |sep| - |Last(Split(s, sep))|..] == sep + Last(Split(s, sep))
  {
    var k := IndexOf(s, sep).value;
    var tail := s[k + |sep|..];
    var l := Last(Split(tail, sep));
    assert Last(Split(s, sep)) == l;
    IndexOfIffContains(tail, sep);
    if IndexOf(tail, sep).Some? {
      SplitLastSuffix(tail, sep);
    } else {
      assert Split(tail, sep) == [tail];
    }
    SplitLastStep(s, sep, k, l);
  }

  /** The suffix part of `SplitLast` for one cut at `k`. */
  lemma SplitLastStep(s: string, sep: string, k: nat, l: string)
    requires |sep| > 0 && OccursAt(s, sep, k)
    requires var tail := s[k + |sep|..];
             !Contains(tail, sep) ==> l == tail
    requires var tail := s[k + |sep|..];
             Contains(tail, sep) ==> |l| + |sep| <= |tail| && tail[|tail| - |sep| - |l|..] == sep + l
    ensures |l| + |sep| <= |s| && s[|s| - |sep| - |l|..] == sep + l
  {
    var tail := s[k + |sep|..];
    if Contains(tail, sep) {
      assert s[|s| - |sep| - |l|..] == tail[|tail| - |sep| - |l|..];
    } else {
      assert s[k..k + |sep|] == sep;
      assert s[k..] == s[k..k + |sep|] + tail;
    }
  }

  // ---------------------------------------------------------------------------
  // slicing

  /** Python's `s[-n:]`: the last `min(n, |s|)` characters for `n >= 1`; since
      `-0 == 0`, `s[-0:]` is all of `s`. */
  function TakeLast(s: string, n: nat): (r: string)
    ensures |r| == if n == 0 || |s| <= n then |s| else n
    ensures r == s[|s| - |r|..]
  {
    if n == 0 || |s| <= n then s else s[|s| - n..]
  }

  /** Length of the maximal leading run of digits. */
  function DigitRun(s: string): (d: nat)
    ensures d <= |s| && AllDigits(s[..d])
    ensures d == |s| || !IsDigit(s[d])
  {
    if |s| > 0 && IsDigit(s[0]) then
      var d := 1 + DigitRun(s[1..]);
      assert s[..d] == [s[0]] + s[1..][..d - 1];
      d
    else 0
  }

  /** A digit run ended by a non-digit is exactly what `DigitRun` measures. */
  lemma {:induction false} DigitRunOf(c: string, y: string)
    requires AllDigits(c)
    requires y == [] || !IsDigit(y[0])
    ensures DigitRun(c + y) == |c|
  {
    if c != [] {
      assert (c + y)[1..] == c[1..] + y;
      DigitRunOf(c[1..], y);
    }
  }
}
