/**
 * The two preserved sections of an existing hackathon README.
 *
 * The script reads `## Event Details` and `## Resources` back out of the README it
 * wrote last time with `re.search(heading + r'\s+(.+?)(?=##|\Z)', text, re.DOTALL)`
 * and strips the group; a section that is not found is the empty text, and a README
 * that cannot be read gives the two default sections.
 *
 * The lazy group must hold at least one character, so when the preserved section is
 * empty the group begins at the next heading and runs to the heading after it. Both
 * readings are modelled: `GroupAtAsWritten` is the search as written, which the script
 * as it stands uses, and `GroupAt` is the corrected search, which allows the empty group
 * (`.*?`). Under the corrected reading a README the script wrote gives back the sections
 * it was written with.
 */
module Sections {
  import opened Wrappers
  import opened Text

  const EVENT_DETAILS_HEADING := "## Event Details"
  const RESOURCES_HEADING := "## Resources"
  const DEFAULT_EVENT_DETAILS := "- **Date**: TBD\n" + "- **Location**: TBD\n" + "- **Theme**: TBD"
  const DEFAULT_RESOURCES := "- [Event Schedule](" + "#" + ")\n- [Judging Criteria](" + "#" + ")\n- [Prizes](" + "#" + ")"

  /** Two `#` in a row start at index `k`: where the lookahead `(?=##|\Z)` succeeds before the end. */
  predicate HashPairAt(s: string, k: int) {
    0 <= k && k + 1 < |s| && s[k] == '#' && s[k + 1] == '#'
  }

  /** A text in which `##` never occurs. */
  predicate PairFree(s: string) {
    forall k :: 0 <= k < |s| - 1 ==> !(s[k] == '#' && s[k + 1] == '#')
  }

  /** The first index at or after `k` where `##` starts, or `|s|`: where a lazy group that may end at `k` stops. */
  function NextPair(s: string, k: nat): (r: nat)
    requires k <= |s|
    ensures k <= r <= |s|
    ensures forall t :: k <= t < r ==> !HashPairAt(s, t)
    ensures r < |s| ==> HashPairAt(s, r)
    decreases |s| - k
  {
    if k == |s| || HashPairAt(s, k) then k else NextPair(s, k + 1)
  }

  /** A stretch from `k` to `e` without `##` that stops at `##` or at the end is what NextPair finds. */
  lemma NextPairIs(s: string, k: nat, e: nat)
    requires k <= e <= |s|
    requires forall t :: k <= t < e ==> !HashPairAt(s, t)
    requires e < |s| ==> HashPairAt(s, e)
    ensures NextPair(s, k) == e
  {
  }

  /**
   * The group of `heading\s+(.*?)(?=##|\Z)` for a match starting at index `i`: one or more
   * whitespace characters (all of them, as `\s+` is greedy and nothing after it needs
   * whitespace), then everything up to the next `##` or the end.
   */
  function GroupAt(s: string, heading: string, i: nat): (r: Option<string>)
    requires i <= |s|
    ensures r.Some? ==> PairFree(r.value)
  {
    if !OccursAt(s, heading, i) then None
    else
      var p := i + |heading|;
      var q := SkipSpace(s, p);
      if q == p then None
      else
        var e := NextPair(s, q);
        assert PairFree(s[q..e]) by {
          forall k | 0 <= k < e - q - 1 ensures !(s[q..e][k] == '#' && s[q..e][k + 1] == '#') {
            assert !HashPairAt(s, q + k);
          }
        }
        Some(s[q..e])
  }

  /**
   * The group of `heading\s+(.+?)(?=##|\Z)` as the script writes it: the group takes at
   * least one character, so after the whitespace it first takes one character and then
   * looks for `##`. When the whitespace runs to the end of the text, `\s+` gives back its
   * last character to the group, which needs two whitespace characters.
   */
  function GroupAtAsWritten(s: string, heading: string, i: nat): (r: Option<string>)
    requires i <= |s|
    ensures r.Some? ==> |r.value| >= 1
  {
    if !OccursAt(s, heading, i) then None
    else
      var p := i + |heading|;
      var q := SkipSpace(s, p);
      if q == p then None
      else if q < |s| then Some(s[q..NextPair(s, q + 1)])
      else if q - p >= 2 then Some(s[|s| - 1..])
      else None
  }

  /** The group at `i` under the correct or the as-written pattern. */
  function Group(s: string, heading: string, i: nat, asWritten: bool): (r: Option<string>)
    requires i <= |s|
  {
    if asWritten then GroupAtAsWritten(s, heading, i) else GroupAt(s, heading, i)
  }

  /** `re.search`: the leftmost index at or after `i` where the section pattern matches. */
  function SearchSection(s: string, heading: string, i: nat, asWritten: bool): (r: Option<nat>)
    requires i <= |s|
    ensures r.Some? ==> i <= r.value <= |s| && Group(s, heading, r.value, asWritten).Some?
    ensures r.Some? ==> forall t :: i <= t < r.value ==> Group(s, heading, t, asWritten).None?
    ensures r.None? ==> forall t :: i <= t <= |s| ==> Group(s, heading, t, asWritten).None?
    decreases |s| - i
  {
    if Group(s, heading, i, asWritten).Some? then Some(i)
    else if i == |s| then None
    else SearchSection(s, heading, i + 1, asWritten)
  }

  /** The stripped group of the leftmost match, or the empty text when the pattern never matches. */
  function SectionOf(s: string, heading: string, asWritten: bool): (r: string)
    ensures Stripped(r)
  {
    match SearchSection(s, heading, 0, asWritten)
    case Some(i) =>
      StripShape(Group(s, heading, i, asWritten).value);
      Strip(Group(s, heading, i, asWritten).value)
    case None => ""
  }

  /** The section comes from the leftmost index where the pattern matches. */
  lemma SectionOfLeftmost(s: string, heading: string, asWritten: bool, i: nat)
    requires i <= |s| && Group(s, heading, i, asWritten).Some?
    requires forall t :: 0 <= t < i ==> Group(s, heading, t, asWritten).None?
    ensures SectionOf(s, heading, asWritten) == Strip(Group(s, heading, i, asWritten).value)
  {
    var r := SearchSection(s, heading, 0, asWritten);
    assert r.Some?;
    assert !(r.value < i);
    assert !(r.value > i);
  }

  /** Where the pattern never matches, the section is empty. */
  lemma SectionOfAbsent(s: string, heading: string, asWritten: bool)
    requires forall i :: 0 <= i <= |s| ==> Group(s, heading, i, asWritten).None?
    ensures SectionOf(s, heading, asWritten) == ""
  {
  }

  /** A slice of a text without `##` has no `##` either. */
  lemma PairFreeSlice(s: string, a: nat, b: nat)
    requires PairFree(s) && a <= b <= |s|
    ensures PairFree(s[a..b])
  {
    forall k | 0 <= k < b - a - 1 ensures !(s[a..b][k] == '#' && s[a..b][k + 1] == '#') {
      assert s[a..b][k] == s[a + k] && s[a..b][k + 1] == s[a + k + 1];
    }
  }

  /** The section the script keeps: stripped, and without `##`. */
  function Section(s: string, heading: string): (r: string)
    ensures Stripped(r) && PairFree(r)
  {
    var r := SectionOf(s, heading, false);
    match SearchSection(s, heading, 0, false)
    case Some(i) =>
      var g := GroupAt(s, heading, i).value;
      StripShape(g);
      var a, b :| 0 <= a <= b <= |g| && Strip(g) == g[a..b] && AllSpace(g[..a]) && AllSpace(g[b..]);
      PairFreeSlice(g, a, b);
      r
    case None => r
  }

  /** The section as the script's own pattern reads it. */
  function SectionAsWritten(s: string, heading: string): (r: string)
    ensures Stripped(r)
  {
    SectionOf(s, heading, true)
  }

  /** Event details and resources to write: read from the previous README, or the defaults when there is none. */
  function PreservedSections(previous: Option<string>): (r: (string, string))
    ensures Stripped(r.0) && PairFree(r.0) && Stripped(r.1) && PairFree(r.1)
    ensures previous.None? ==> r == (DEFAULT_EVENT_DETAILS, DEFAULT_RESOURCES)
    ensures previous.Some? ==> r == (Section(previous.value, EVENT_DETAILS_HEADING), Section(previous.value, RESOURCES_HEADING))
  {
    if previous.None? then
      DefaultsKeepable();
      (DEFAULT_EVENT_DETAILS, DEFAULT_RESOURCES)
    else
      (Section(previous.value, EVENT_DETAILS_HEADING), Section(previous.value, RESOURCES_HEADING))
  }

  /** The same, with the script's own pattern. */
  function PreservedSectionsAsWritten(previous: Option<string>): (r: (string, string))
    ensures previous.None? ==> r == (DEFAULT_EVENT_DETAILS, DEFAULT_RESOURCES)
    ensures previous.Some? ==> r == (SectionAsWritten(previous.value, EVENT_DETAILS_HEADING), SectionAsWritten(previous.value, RESOURCES_HEADING))
    ensures Stripped(r.0) && Stripped(r.1)
  {
    if previous.None? then
      DefaultsKeepable();
      (DEFAULT_EVENT_DETAILS, DEFAULT_RESOURCES)
    else
      (SectionAsWritten(previous.value, EVENT_DETAILS_HEADING), SectionAsWritten(previous.value, RESOURCES_HEADING))
  }

  // ---------------------------------------------------------------------------
  // Where `##` can and cannot occur

  lemma HashFreePairFree(s: string)
    requires '#' !in s
    ensures PairFree(s)
  {
    forall k | 0 <= k < |s| - 1 ensures s[k] != '#' { assert s[k] in s; }
  }

  /** Two texts without `##` that do not meet in two `#` give a text without `##`. */
  lemma PairFreeConcat(a: string, b: string)
    requires PairFree(a) && PairFree(b)
    requires a == [] || b == [] || a[|a| - 1] != '#' || b[0] != '#'
    ensures PairFree(a + b)
  {
    var s := a + b;
    forall k | 0 <= k < |s| - 1 ensures !(s[k] == '#' && s[k + 1] == '#') {
      if k + 1 < |a| {
        assert s[k] == a[k] && s[k + 1] == a[k + 1];
      } else if k + 1 == |a| {
        assert s[k] == a[|a| - 1] && s[k + 1] == b[0];
      } else {
        assert s[k] == b[k - |a|] && s[k + 1] == b[k + 1 - |a|];
      }
    }
  }

  /** The default sections are stripped and have no `##`, so a re-run keeps them. */
  lemma DefaultsKeepable()
    ensures Stripped(DEFAULT_EVENT_DETAILS) && PairFree(DEFAULT_EVENT_DETAILS)
    ensures Stripped(DEFAULT_RESOURCES) && PairFree(DEFAULT_RESOURCES)
  {
    DefaultEventDetailsPairFree();
    DefaultResourcesPairFree();
  }

  lemma DefaultEventDetailsPairFree()
    ensures PairFree(DEFAULT_EVENT_DETAILS)
  {
    assert '#' !in "- **Date**: TBD\n";
    assert '#' !in "- **Location**: TBD\n";
    assert '#' !in "- **Theme**: TBD";
    HashFreePairFree(DEFAULT_EVENT_DETAILS);
  }

  lemma DefaultResourcesPairFree()
    ensures PairFree(DEFAULT_RESOURCES)
  {
    var r1, r2, r3 := "- [Event Schedule](", ")\n- [Judging Criteria](", ")\n- [Prizes](";
    assert '#' !in r1;
    assert '#' !in r2;
    assert '#' !in r3;
    HashFreePairFree(r1);
    HashFreePairFree(r2);
    HashFreePairFree(r3);
    HashFreePairFree(")");
    assert PairFree("#");
    PairFreeConcat(r1, "#");
    PairFreeConcat(r1 + "#", r2);
    PairFreeConcat(r1 + "#" + r2, "#");
    PairFreeConcat(r1 + "#" + r2 + "#", r3);
    PairFreeConcat(r1 + "#" + r2 + "#" + r3, "#");
    PairFreeConcat(r1 + "#" + r2 + "#" + r3 + "#", ")");
  }

  /** A text in which `##` occurs at most at index `i`. */
  predicate PairFreeExcept(s: string, i: int) {
    forall k :: 0 <= k < |s| - 1 && k != i ==> !(s[k] == '#' && s[k + 1] == '#')
  }

  /** Appending a text without `##`, with no `#` where they meet, adds no `##`. */
  lemma PairFreeExceptConcat(a: string, b: string, i: int)
    requires PairFreeExcept(a, i) && PairFree(b) && i < |a| - 1
    requires a == [] || b == [] || a[|a| - 1] != '#' || b[0] != '#'
    ensures PairFreeExcept(a + b, i)
  {
    var s := a + b;
    forall k | 0 <= k < |s| - 1 && k != i ensures !(s[k] == '#' && s[k + 1] == '#') {
      if k + 1 < |a| {
        assert s[k] == a[k] && s[k + 1] == a[k + 1];
      } else if k + 1 == |a| {
        assert s[k] == a[|a| - 1] && s[k + 1] == b[0];
      } else {
        assert s[k] == b[k - |a|] && s[k + 1] == b[k + 1 - |a|];
      }
    }
  }

  /** A text without `##` followed by a heading whose only `##` is its first two characters. */
  lemma PairFreeThenHeading(a: string, h: string)
    requires PairFree(a) && (a == [] || a[|a| - 1] != '#')
    requires PairFreeExcept(h, 0)
    ensures PairFreeExcept(a + h, |a|)
  {
    var s := a + h;
    forall k | 0 <= k < |s| - 1 && k != |a| ensures !(s[k] == '#' && s[k + 1] == '#') {
      if k + 1 < |a| {
        assert s[k] == a[k] && s[k + 1] == a[k + 1];
      } else if k + 1 == |a| {
        assert s[k] == a[|a| - 1];
      } else {
        assert s[k] == h[k - |a|] && s[k + 1] == h[k + 1 - |a|];
      }
    }
  }

  /** The two headings have `##` only at their start. */
  lemma HeadingsPairFreeExceptStart()
    ensures PairFreeExcept(EVENT_DETAILS_HEADING, 0) && PairFreeExcept(RESOURCES_HEADING, 0)
  {
    assert EVENT_DETAILS_HEADING == "#" + "#" + " Event Details";
    assert RESOURCES_HEADING == "#" + "#" + " Resources";
    assert '#' !in " Event Details";
    assert '#' !in " Resources";
    HeadingPairFreeExceptStart(" Event Details");
    HeadingPairFreeExceptStart(" Resources");
  }

  lemma HeadingPairFreeExceptStart(rest: string)
    requires '#' !in rest
    ensures PairFreeExcept("#" + "#" + rest, 0)
  {
    var s := "#" + "#" + rest;
    forall k | 0 <= k < |s| - 1 && k != 0 ensures !(s[k] == '#' && s[k + 1] == '#') {
      assert s[k + 1] == rest[k - 1];
      assert rest[k - 1] in rest;
    }
  }

  /**
   * A pattern that begins with `##` cannot match inside a prefix `x` of `s` whose only
   * `##` is at `i`, if it does not match at `i` and `x` does not end in `#`.
   */
  lemma NoMatchInPrefix(s: string, x: string, heading: string, i: int)
    requires |x| <= |s| && s[..|x|] == x && StartsWith(heading, "##")
    requires PairFreeExcept(x, i) && (x == [] || x[|x| - 1] != '#')
    requires 0 <= i < |x| ==> !OccursAt(s, heading, i)
    ensures forall t :: 0 <= t < |x| ==> !OccursAt(s, heading, t)
  {
    forall t | 0 <= t < |x| ensures !OccursAt(s, heading, t) {
      OccursAtPair(s, heading, t);
      assert s[t] == x[t];
      if t + 1 < |x| {
        assert s[t + 1] == x[t + 1];
      }
    }
  }

  /** A document without the heading has that section empty, under either pattern. */
  lemma MissingHeadingEmptySection(s: string, heading: string)
    requires !Contains(s, heading)
    ensures Section(s, heading) == "" && SectionAsWritten(s, heading) == ""
  {
    forall i, w | 0 <= i <= |s| ensures Group(s, heading, i, w).None? {
      assert !OccursAt(s, heading, i);
    }
    SectionOfAbsent(s, heading, false);
    SectionOfAbsent(s, heading, true);
  }

  /** A pattern that begins with `##` matches only where `##` occurs. */
  lemma OccursAtPair(s: string, heading: string, t: nat)
    requires t <= |s| && StartsWith(heading, "##")
    ensures OccursAt(s, heading, t) ==> HashPairAt(s, t)
  {
    if OccursAt(s, heading, t) {
      assert s[t..][..|heading|] == heading;
      assert s[t] == s[t..][0] && s[t + 1] == s[t..][1];
    }
  }

  // ---------------------------------------------------------------------------
  // Reading back a section the script wrote

  /**
   * The pieces of a section as `"\n".join` lays out its lines: the heading, a blank line,
   * the text, a blank line, then the rest.
   */
  lemma WrittenLayout(s: string, a: string, heading: string, v: string, tail: string)
    requires s == a + heading + "\n" + "" + "\n" + v + "\n" + "" + "\n" + tail
    ensures OccursAt(s, heading, |a|) && s[..|a|] == a
    ensures var p := |a| + |heading|;
            && p + 4 + |v| <= |s|
            && s[p] == '\n' && s[p + 1] == '\n'
            && s[p + 2 + |v|] == '\n' && s[p + 3 + |v|] == '\n'
            && s[p + 2..p + 2 + |v|] == v
            && s[p + 4 + |v|..] == tail
  {
    var p := |a| + |heading|;
    assert s[..|a|] == a;
    assert s[|a|..][..|heading|] == heading;
    assert s[p + 2..p + 2 + |v|] == v;
    assert s[p + 4 + |v|..] == tail;
  }

  /** An empty section: the whitespace runs to the next `##`, where the group ends at once. */
  lemma EmptyBlock(s: string, p: nat, e: nat)
    requires p + 4 == e && e + 1 < |s|
    requires s[p] == '\n' && s[p + 1] == '\n' && s[p + 2] == '\n' && s[p + 3] == '\n'
    requires s[e] == '#' && s[e + 1] == '#'
    ensures SkipSpace(s, p) == e && NextPair(s, e) == e
  {
    SkipSpaceIs(s, p, e);
  }

  /** A non-empty stripped section without `##`: the group is the text and the blank line after it. */
  lemma TextBlock(s: string, p: nat, v: string, e: nat)
    requires p + 4 + |v| == e && e + 1 < |s| && v != []
    requires s[p] == '\n' && s[p + 1] == '\n' && s[e - 2] == '\n' && s[e - 1] == '\n'
    requires s[p + 2..e - 2] == v
    requires s[e] == '#' && s[e + 1] == '#'
    requires Stripped(v) && PairFree(v)
    ensures SkipSpace(s, p) == p + 2
    ensures NextPair(s, p + 2) == e && NextPair(s, p + 3) == e
    ensures Strip(s[p + 2..e]) == v
  {
    var q := p + 2;
    assert s[q] == v[0];
    SkipSpaceIs(s, p, q);
    forall t | q <= t < e ensures !HashPairAt(s, t) {
      if t + 1 < e - 2 {
        assert s[t] == v[t - q] && s[t + 1] == v[t - q + 1];
      }
    }
    NextPairIs(s, q, e);
    NextPairIs(s, q + 1, e);
    assert s[q..e] == v + "\n\n";
    StripTrailingSpace(v, "\n\n");
  }

  /** No match of `heading` before `n` under either pattern. */
  lemma NoGroupBefore(s: string, heading: string, n: nat)
    requires n <= |s|
    requires forall t :: 0 <= t < n ==> !OccursAt(s, heading, t)
    ensures forall t, w :: 0 <= t < n ==> Group(s, heading, t, w).None?
  {
  }

  /** The reading back of a written section, stated on the characters around it. */
  lemma CaptureSectionAt(s: string, i: nat, heading: string, v: string)
    requires OccursAt(s, heading, i)
    requires var p := i + |heading|;
             && p + 5 + |v| < |s|
             && s[p] == '\n' && s[p + 1] == '\n'
             && s[p + 2 + |v|] == '\n' && s[p + 3 + |v|] == '\n'
             && s[p + 2..p + 2 + |v|] == v
             && s[p + 4 + |v|] == '#' && s[p + 5 + |v|] == '#'
    requires forall t :: 0 <= t < i ==> !OccursAt(s, heading, t)
    requires Stripped(v) && PairFree(v)
    ensures Section(s, heading) == v
    ensures v != [] ==> SectionAsWritten(s, heading) == v
  {
    var p := i + |heading|;
    var e := p + 4 + |v|;
    NoGroupBefore(s, heading, i);
    if v == [] {
      EmptyBlock(s, p, e);
      assert GroupAt(s, heading, i) == Some(s[e..e]);
      SectionOfLeftmost(s, heading, false, i);
      assert s[e..e] == [];
    } else {
      TextBlock(s, p, v, e);
      assert GroupAt(s, heading, i) == Some(s[p + 2..e]);
      assert GroupAtAsWritten(s, heading, i) == Some(s[p + 2..e]);
      SectionOfLeftmost(s, heading, false, i);
      SectionOfLeftmost(s, heading, true, i);
    }
  }

  /**
   * A section written as the script writes it, `heading`, a blank line, the stripped
   * text without `##`, a blank line and the next heading, reads back as that text,
   * provided the heading does not match earlier.
   */
  lemma CaptureSection(s: string, a: string, heading: string, v: string, tail: string)
    requires s == a + heading + "\n" + "" + "\n" + v + "\n" + "" + "\n" + tail
    requires forall t :: 0 <= t < |a| ==> !OccursAt(s, heading, t)
    requires Stripped(v) && PairFree(v) && StartsWith(tail, "##")
    ensures Section(s, heading) == v
    ensures v != [] ==> SectionAsWritten(s, heading) == v
  {
    var e := |a| + |heading| + 4 + |v|;
    WrittenLayout(s, a, heading, v, tail);
    assert s[e] == tail[0] && s[e + 1] == tail[1];
    CaptureSectionAt(s, |a|, heading, v);
  }

  /**
   * The same layout with an empty section under the script's own pattern: the group
   * starts at the next heading, so what is read back is not the empty section but a
   * text that begins with `##`.
   */
  lemma CaptureEmptySectionAsWritten(s: string, a: string, heading: string, tail: string)
    requires s == a + heading + "\n" + "" + "\n" + "" + "\n" + "" + "\n" + tail
    requires forall t :: 0 <= t < |a| ==> !OccursAt(s, heading, t)
    requires StartsWith(tail, "## ")
    ensures StartsWith(SectionAsWritten(s, heading), "##")
    ensures Section(s, heading) == ""
  {
    var e := |a| + |heading| + 4;
    WrittenLayout(s, a, heading, [], tail);
    assert s[e] == tail[0] && s[e + 1] == tail[1] && s[e + 2] == tail[2];
    CaptureSectionAt(s, |a|, heading, []);
    EmptySectionAsWrittenAt(s, |a|, heading);
  }

  /** Under the script's own pattern, an empty section followed by `## ` reads as the text from that heading on. */
  lemma EmptySectionAsWrittenAt(s: string, i: nat, heading: string)
    requires OccursAt(s, heading, i)
    requires var p := i + |heading|;
             && p + 6 < |s|
             && s[p] == '\n' && s[p + 1] == '\n' && s[p + 2] == '\n' && s[p + 3] == '\n'
             && s[p + 4] == '#' && s[p + 5] == '#' && s[p + 6] == ' '
    requires forall t :: 0 <= t < i ==> !OccursAt(s, heading, t)
    ensures StartsWith(SectionAsWritten(s, heading), "##")
  {
    NoGroupBefore(s, heading, i);
    EmptyGroupAsWritten(s, i, heading);
    SectionOfLeftmost(s, heading, true, i);
    StartsWithPairStripped(GroupAtAsWritten(s, heading, i).value);
  }

  /** The as-written group of an empty section followed by `## ` starts with that `##`. */
  lemma EmptyGroupAsWritten(s: string, i: nat, heading: string)
    requires OccursAt(s, heading, i)
    requires var p := i + |heading|;
             && p + 6 < |s|
             && s[p] == '\n' && s[p + 1] == '\n' && s[p + 2] == '\n' && s[p + 3] == '\n'
             && s[p + 4] == '#' && s[p + 5] == '#' && s[p + 6] == ' '
    ensures var g := GroupAtAsWritten(s, heading, i);
            g.Some? && |g.value| >= 2 && g.value[0] == '#' && g.value[1] == '#'
  {
    var p := i + |heading|;
    var e := p + 4;
    EmptyBlock(s, p, e);
    assert !HashPairAt(s, e + 1);
    var n := NextPair(s, e + 1);
    assert n >= e + 2;
    var g := s[e..n];
    assert g[0] == s[e] && g[1] == s[e + 1];
  }

  /** Trimming the end keeps every character up to the last non-space one. */
  lemma {:induction false} TrimEndKeeps(g: string, k: nat)
    requires k < |g| && !IsSpace(g[k])
    ensures k < |TrimEnd(g)|
    decreases |g|
  {
    if IsSpace(g[|g| - 1]) {
      assert g[..|g| - 1][k] == g[k];
      TrimEndKeeps(g[..|g| - 1], k);
    }
  }

  /** Stripping a text that begins with `##` keeps the `##`. */
  lemma StartsWithPairStripped(g: string)
    requires |g| >= 2 && g[0] == '#' && g[1] == '#'
    ensures StartsWith(Strip(g), "##")
  {
    assert TrimStart(g) == g;
    TrimEndKeeps(g, 1);
    var r := TrimEnd(g);
    assert r[..2] == g[..2];
  }
}
