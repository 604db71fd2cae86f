/**
 * String helpers with the meaning Python gives them: whitespace as `str.isspace`
 * (which is also what `\s` and `str.strip()` use), substring tests, `str.join`, ASCII lower-casing and the decimal rendering of an `int`.
 */
module Text {

  /** Python's `str.isspace()` for one character. */
  predicate IsSpace(c: char) {
    || ('\t' <= c <= '\r')
    || ('\U{1C}' <= c <= '\U{1F}')
    || c == ' ' || c == '\U{85}' || c == '\U{A0}' || c == '\U{1680}'
    || ('\U{2000}' <= c <= '\U{200A}')
    || c == '\U{2028}' || c == '\U{2029}' || c == '\U{202F}' || c == '\U{205F}' || c == '\U{3000}'
  }

  predicate AllSpace(s: string) {
    forall i :: 0 <= i < |s| ==> IsSpace(s[i])
  }

  /** A value that a `"[^"]*"` group can capture. */
  predicate QuoteFree(s: string) {
    '"' !in s
  }

  predicate StartsWith(s: string, p: string) {
    |p| <= |s| && s[..|p|] == p
  }

  /** Python's `s.endswith(p)`. */
  predicate EndsWith(s: string, p: string) {
    |p| <= |s| && s[|s| - |p|..] == p
  }

  /** A text ends with `p` exactly when it is some text followed by `p`. */
  lemma EndsWithShape(s: string, p: string)
    ensures EndsWith(s, p) <==> |p| <= |s| && s == s[..|s| - |p|] + p
    ensures EndsWith(s + p, p)
  {
    assert (s + p)[|s|..] == p;
  }

  /** `p` occurs in `s` starting at index `k`. */
  predicate OccursAt(s: string, p: string, k: int) {
    0 <= k <= |s| && StartsWith(s[k..], p)
  }

  /** A match of `p` at `k` puts `p`'s characters from `k` on. */
  lemma OccursAtChar(s: string, p: string, k: nat, j: nat)
    requires k <= |s| && j < |p|
    ensures OccursAt(s, p, k) ==> s[k + j] == p[j]
  {
    if OccursAt(s, p, k) {
      assert s[k..][..|p|][j] == p[j];
    }
  }

  /** Python's substring test `p in s`. */
  predicate Contains(s: string, p: string) {
    exists k :: 0 <= k <= |s| && OccursAt(s, p, k)
  }

  /** The first index at or after `k` that holds `c`, or `|s|` when there is none. */
  function IndexOfFrom(s: string, c: char, k: nat): (r: nat)
    requires k <= |s|
    ensures k <= r <= |s|
    ensures forall t :: k <= t < r ==> s[t] != c
    ensures r < |s| ==> s[r] == c
    decreases |s| - k
  {
    if k == |s| || s[k] == c then k else IndexOfFrom(s, c, k + 1)
  }

  /** The first index at or after `k` that does not hold whitespace, or `|s|`. */
  function SkipSpace(s: string, k: nat): (r: nat)
    requires k <= |s|
    ensures k <= r <= |s|
    ensures forall t :: k <= t < r ==> IsSpace(s[t])
    ensures r < |s| ==> !IsSpace(s[r])
    decreases |s| - k
  {
    if k == |s| || !IsSpace(s[k]) then k else SkipSpace(s, k + 1)
  }

  /** A run of whitespace from `k` to `e` that stops at a non-space or at the end is what SkipSpace finds. */
  lemma SkipSpaceIs(s: string, k: nat, e: nat)
    requires k <= e <= |s|
    requires forall t :: k <= t < e ==> IsSpace(s[t])
    requires e < |s| ==> !IsSpace(s[e])
    ensures SkipSpace(s, k) == e
  {
  }

  /** A character-free stretch from `k` to `e` that stops at `c` or at the end is what IndexOfFrom finds. */
  lemma IndexOfFromIs(s: string, c: char, k: nat, e: nat)
    requires k <= e <= |s|
    requires forall t :: k <= t < e ==> s[t] != c
    requires e < |s| ==> s[e] == c
    ensures IndexOfFrom(s, c, k) == e
  {
  }

  // ---------------------------------------------------------------------------
  // str.strip()

  /** `s` with its leading whitespace removed: the longest all-space prefix is dropped. */
  function TrimStart(s: string): (r: string)
    ensures |r| <= |s| && r == s[|s| - |r|..]
    ensures AllSpace(s[..|s| - |r|])
    ensures r == [] || !IsSpace(r[0])
    decreases |s|
  {
    if |s| > 0 && IsSpace(s[0]) then
      var r := TrimStart(s[1..]);
      var n := |s| - |r|;
      assert s[n..] == s[1..][n - 1..];
      assert AllSpace(s[..n]) by {
        forall i | 0 <= i < n ensures IsSpace(s[..n][i]) {
          if i > 0 { assert s[..n][i] == s[1..][..n - 1][i - 1]; }
        }
      }
      r
    else s
  }

  /** `s` with its trailing whitespace removed: the longest all-space suffix is dropped. */
  function TrimEnd(s: string): (r: string)
    ensures |r| <= |s| && r == s[..|r|]
    ensures AllSpace(s[|r|..])
    ensures r == [] || !IsSpace(r[|r| - 1])
    decreases |s|
  {
    if |s| > 0 && IsSpace(s[|s| - 1]) then TrimEnd(s[..|s| - 1]) else s
  }

  /** A text with no whitespace at either end. */
  predicate Stripped(s: string) {
    s == [] || (!IsSpace(s[0]) && !IsSpace(s[|s| - 1]))
  }

  /** Python's `s.strip()`. */
  function Strip(s: string): (r: string)
  {
    TrimEnd(TrimStart(s))
  }

  /** Strip removes exactly whitespace from both ends and leaves a stripped text. */
  lemma StripShape(s: string)
    ensures Stripped(Strip(s))
    ensures exists a, b :: 0 <= a <= b <= |s| && Strip(s) == s[a..b] && AllSpace(s[..a]) && AllSpace(s[b..])
  {
    var t := TrimStart(s);
    var r := TrimEnd(t);
    var a := |s| - |t|;
    var b := a + |r|;
    assert r == s[a..b];
    assert s[b..] == t[|r|..];
    if r != [] {
      assert r[0] == t[0];
    }
  }

  /** Stripping an already stripped text changes nothing. */
  lemma StripStripped(s: string)
    requires Stripped(s)
    ensures Strip(s) == s
  {
  }

  /** Trailing whitespace after a stripped text is all that strip removes. */
  lemma {:induction false} StripTrailingSpace(s: string, w: string)
    requires Stripped(s) && AllSpace(w)
    ensures Strip(s + w) == s
    decreases |w|
  {
    if w == [] {
      assert s + w == s;
      StripStripped(s);
    } else {
      var sw := s + w;
      assert IsSpace(sw[|sw| - 1]);
      assert sw[..|sw| - 1] == s + w[..|w| - 1];
      if s == [] {
        assert TrimStart(sw) == [];
      } else {
        assert TrimStart(sw) == sw;
        assert TrimStart(s + w[..|w| - 1]) == s + w[..|w| - 1];
      }
      StripTrailingSpace(s, w[..|w| - 1]);
    }
  }

  /** Stripping is idempotent. */
  lemma StripIdempotent(s: string)
    ensures Strip(Strip(s)) == Strip(s)
  {
    StripShape(s);
    StripStripped(Strip(s));
  }

  lemma AppendEmpty(s: string)
    ensures s + "" == s
  {
  }

  lemma AppendAssoc(a: string, b: string, c: string)
    ensures (a + b) + c == a + (b + c)
  {
  }

  /** A text that starts with `p` starts with every prefix of `p`. */
  lemma StartsWithPrefix(s: string, p: string, n: nat)
    requires StartsWith(s, p) && n <= |p|
    ensures StartsWith(s, p[..n])
  {
    assert s[..n] == s[..|p|][..n];
  }

  // ---------------------------------------------------------------------------
  // str.join

  /** Python's `sep.join(items)`. */
  function Join(items: seq<string>, sep: string): (r: string)
    decreases |items|
  {
    if |items| == 0 then ""
    else if |items| == 1 then items[0]
    else items[0] + sep + Join(items[1..], sep)
  }

  /** Joining two non-empty lists puts one separator between their joins. */
  lemma {:induction false} JoinAppend(a: seq<string>, b: seq<string>, sep: string)
    requires |a| > 0 && |b| > 0
    ensures Join(a + b, sep) == Join(a, sep) + sep + Join(b, sep)
    decreases |a|
  {
    if |a| == 1 {
      assert (a + b)[1..] == b;
    } else {
      assert (a + b)[1..] == a[1..] + b;
      JoinAppend(a[1..], b, sep);
    }
  }

  /** The join of a non-empty list starts with its first item. */
  lemma JoinStartsWith(items: seq<string>, sep: string)
    requires |items| > 0
    ensures StartsWith(Join(items, sep), items[0])
  {
    var j := Join(items, sep);
    if |items| > 1 {
      assert j == items[0] + (sep + Join(items[1..], sep));
    }
    assert j[..|items[0]|] == items[0];
  }

  /** A character that is in no item and not in the separator is not in the join. */
  lemma {:induction false} JoinFree(items: seq<string>, sep: string, c: char)
    requires forall i :: 0 <= i < |items| ==> c !in items[i]
    requires c !in sep
    ensures c !in Join(items, sep)
    decreases |items|
  {
    if |items| > 1 {
      JoinFree(items[1..], sep, c);
    }
  }

  // ---------------------------------------------------------------------------
  // str.lower() on ASCII

  function LowerChar(c: char): (r: char)
  {
    if 'A' <= c <= 'Z' then (c as int + 32) as char else c
  }

  /** Python's `s.lower()`, restricted to the ASCII letters. */
  function Lower(s: string): (r: string)
    ensures |r| == |s|
    ensures forall i :: 0 <= i < |s| ==> r[i] == LowerChar(s[i])
    decreases |s|
  {
    if s == [] then [] else [LowerChar(s[0])] + Lower(s[1..])
  }

  // ---------------------------------------------------------------------------
  // f"{n}" for a non-negative int

  predicate IsDigits(s: string) {
    forall i :: 0 <= i < |s| ==> '0' <= s[i] <= '9'
  }

  function DigitChar(d: nat): (c: char)
    requires d < 10
    ensures '0' <= c <= '9' && c as int - '0' as int == d
  {
    ('0' as int + d) as char
  }

  /** The decimal rendering of `n`, as Python's `str(n)`: digits only, no leading zero. */
  function NatToString(n: nat): (r: string)
    ensures |r| >= 1 && IsDigits(r)
    ensures r[0] == '0' <==> n == 0
    decreases n
  {
    if n < 10 then [DigitChar(n)] else NatToString(n / 10) + [DigitChar(n % 10)]
  }

  /** The value of a string of decimal digits. */
  function DecimalValue(s: string): nat
    requires IsDigits(s)
    decreases |s|
  {
    if s == [] then 0 else 10 * DecimalValue(s[..|s| - 1]) + (s[|s| - 1] as int - '0' as int)
  }

  /** Reading back the rendering of a count gives the count. */
  lemma {:induction false} DecimalValueOfNatToString(n: nat)
    ensures DecimalValue(NatToString(n)) == n
    decreases n
  {
    if n >= 10 {
      var s := NatToString(n);
      assert s[..|s| - 1] == NatToString(n / 10);
      DecimalValueOfNatToString(n / 10);
    }
  }
}
