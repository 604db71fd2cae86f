/**
 * The two regex scanners of the script, written as hand scanners over the text.
 *
 * `extract_field(content, name)` searches for `name:\s*"([^"]*)"` and returns the
 * group or "N/A"; `extract_team_members(content)` searches for
 * `team_members:\s*\[(.*?)\]` and returns every `"([^"]*)"` group inside the
 * brackets. Both take the leftmost match, as `re.search` does; the field name is
 * not anchored, so a match may begin inside a longer name.
 */
module Fields {
  import opened Wrappers
  import opened Text

  const NOT_AVAILABLE := "N/A"
  const TEAM_MEMBERS_KEY := "team_members:"

  // ---------------------------------------------------------------------------
  // name:\s*"([^"]*)"

  /** The group of `name:\s*"([^"]*)"` for a match that starts at index `i`, if there is one. */
  function FieldAt(s: string, name: string, i: nat): (r: Option<string>)
    requires i <= |s|
    ensures r.Some? ==> QuoteFree(r.value)
  {
    if !OccursAt(s, name + ":", i) then None
    else
      var j := SkipSpace(s, i + |name| + 1);
      if j == |s| || s[j] != '"' then None
      else
        var k := IndexOfFrom(s, '"', j + 1);
        if k == |s| then None else Some(s[j + 1..k])
  }

  /**
   * The match of `name:\s*"([^"]*)"` at `i`, stated without the scanner: the name and the
   * colon, whitespace up to the opening quote at `j`, the quote-free value `v`, the closing quote.
   */
  ghost predicate FieldOccurrence(s: string, name: string, i: nat, j: nat, v: string)
  {
    && OccursAt(s, name + ":", i)
    && i + |name| + 1 <= j
    && j + |v| + 1 < |s|
    && AllSpace(s[i + |name| + 1..j])
    && s[j] == '"'
    && s[j + 1..j + 1 + |v|] == v
    && QuoteFree(v)
    && s[j + 1 + |v|] == '"'
  }

  /** Every value FieldAt reports is a match of the pattern. */
  lemma FieldAtSound(s: string, name: string, i: nat)
    requires i <= |s| && FieldAt(s, name, i).Some?
    ensures FieldOccurrence(s, name, i, SkipSpace(s, i + |name| + 1), FieldAt(s, name, i).value)
  {
    var p := i + |name| + 1;
    var j := SkipSpace(s, p);
    assert AllSpace(s[p..j]) by {
      forall t | 0 <= t < j - p ensures IsSpace(s[p..j][t]) { assert s[p..j][t] == s[p + t]; }
    }
  }

  /** Every match of the pattern at `i` is what FieldAt reports. */
  lemma FieldAtComplete(s: string, name: string, i: nat, j: nat, v: string)
    requires FieldOccurrence(s, name, i, j, v)
    ensures FieldAt(s, name, i) == Some(v)
  {
    var p := i + |name| + 1;
    forall t | p <= t < j ensures IsSpace(s[t]) { assert s[t] == s[p..j][t - p]; }
    SkipSpaceIs(s, p, j);
    var k := j + 1 + |v|;
    forall t | j + 1 <= t < k ensures s[t] != '"' { assert s[t] == v[t - j - 1]; }
    IndexOfFromIs(s, '"', j + 1, k);
  }

  /** `re.search`: the leftmost index at or after `i` where the field pattern matches. */
  function SearchField(s: string, name: string, i: nat): (r: Option<nat>)
    requires i <= |s|
    ensures r.Some? ==> i <= r.value <= |s| && FieldAt(s, name, r.value).Some?
    ensures r.Some? ==> forall t :: i <= t < r.value ==> FieldAt(s, name, t).None?
    ensures r.None? ==> forall t :: i <= t <= |s| ==> FieldAt(s, name, t).None?
    decreases |s| - i
  {
    if FieldAt(s, name, i).Some? then Some(i)
    else if i == |s| then None
    else SearchField(s, name, i + 1)
  }

  /** `extract_field`: the value of the leftmost match, or "N/A" when the pattern never matches. */
  function ExtractField(content: string, name: string): (r: string)
    ensures QuoteFree(r)
  {
    match SearchField(content, name, 0)
    case Some(i) => FieldAt(content, name, i).value
    case None => NOT_AVAILABLE
  }

  /** The value is that of the leftmost index where the pattern matches. */
  lemma ExtractFieldLeftmost(content: string, name: string, i: nat)
    requires i <= |content| && FieldAt(content, name, i).Some?
    requires forall t :: 0 <= t < i ==> FieldAt(content, name, t).None?
    ensures ExtractField(content, name) == FieldAt(content, name, i).value
  {
    SearchFieldLeftmost(content, name, i);
  }

  /** Where the pattern matches nowhere the value is "N/A". */
  lemma ExtractFieldNoMatch(content: string, name: string)
    requires forall i :: 0 <= i <= |content| ==> FieldAt(content, name, i).None?
    ensures ExtractField(content, name) == NOT_AVAILABLE
  {
    assert SearchField(content, name, 0).None?;
  }

  /** The search stops at the first index where the pattern matches. */
  lemma SearchFieldLeftmost(s: string, name: string, i: nat)
    requires i <= |s| && FieldAt(s, name, i).Some?
    requires forall t :: 0 <= t < i ==> FieldAt(s, name, t).None?
    ensures SearchField(s, name, 0) == Some(i)
  {
    var r := SearchField(s, name, 0);
    assert r.Some?;
    assert !(r.value < i);
    assert !(r.value > i);
  }

  /** A document that opens with `name: "v"` (any whitespace after the colon) yields exactly `v`. */
  lemma ExtractLeadingField(name: string, ws: string, v: string, rest: string)
    requires AllSpace(ws) && QuoteFree(v)
    ensures ExtractField(name + ":" + ws + "\"" + v + "\"" + rest, name) == v
  {
    var s := name + ":" + ws + "\"" + v + "\"" + rest;
    var j := |name| + 1 + |ws|;
    assert s[..|name| + 1] == name + ":";
    assert s[|name| + 1..j] == ws;
    assert s[j + 1..j + 1 + |v|] == v;
    assert FieldOccurrence(s, name, 0, j, v);
    FieldAtComplete(s, name, 0, j, v);
    ExtractFieldLeftmost(s, name, 0);
  }

  /**
   * The name is not anchored: in a text that opens with a longer name ending in `name`
   * (`release_notes: "v"` for `notes`), the field is read from there.
   */
  lemma ExtractFieldInsideLongerName(prefix: string, name: string, ws: string, v: string, rest: string)
    requires ':' !in prefix && ':' !in name
    requires AllSpace(ws) && QuoteFree(v)
    ensures ExtractField(prefix + name + ":" + ws + "\"" + v + "\"" + rest, name) == v
  {
    var s := prefix + name + ":" + ws + "\"" + v + "\"" + rest;
    var i := |prefix|;
    var j := i + |name| + 1 + |ws|;
    assert s[i..][..|name| + 1] == name + ":";
    assert s[i + |name| + 1..j] == ws;
    assert s[j + 1..j + 1 + |v|] == v;
    assert FieldOccurrence(s, name, i, j, v);
    FieldAtComplete(s, name, i, j, v);
    forall t | 0 <= t < i ensures FieldAt(s, name, t).None? {
      NoColonInside(s, prefix, name, t);
    }
    ExtractFieldLeftmost(s, name, i);
  }

  /** A match starting inside `prefix` would need a colon inside `prefix + name`. */
  lemma NoColonInside(s: string, prefix: string, name: string, t: nat)
    requires |prefix| + |name| <= |s| && s[..|prefix| + |name|] == prefix + name
    requires ':' !in prefix && ':' !in name && t < |prefix|
    ensures !OccursAt(s, name + ":", t)
  {
    var k := t + |name|;
    assert s[k] == (prefix + name)[k];
    if k < |prefix| {
      assert (prefix + name)[k] == prefix[k];
    } else {
      assert (prefix + name)[k] == name[k - |prefix|];
    }
    OccursAtChar(s, name + ":", t, |name|);
  }

  /** A value other than the sentinel can only come from a text that contains `name:`. */
  lemma FieldNeedsMarker(content: string, name: string)
    requires !Contains(content, name + ":")
    ensures ExtractField(content, name) == NOT_AVAILABLE
  {
    forall i | 0 <= i <= |content| ensures FieldAt(content, name, i).None? {
      assert !OccursAt(content, name + ":", i);
    }
    ExtractFieldNoMatch(content, name);
  }

  // ---------------------------------------------------------------------------
  // team_members:\s*\[(.*?)\]  then  "([^"]*)"

  /** The first index at or after `k` holding `]` or a newline (where `.*?` must stop), or `|s|`. */
  function ListEnd(s: string, k: nat): (r: nat)
    requires k <= |s|
    ensures k <= r <= |s|
    ensures forall t :: k <= t < r ==> s[t] != ']' && s[t] != '\n'
    ensures r < |s| ==> s[r] == ']' || s[r] == '\n'
    decreases |s| - k
  {
    if k == |s| || s[k] == ']' || s[k] == '\n' then k else ListEnd(s, k + 1)
  }

  /** The bracket group of `team_members:\s*\[(.*?)\]` for a match that starts at `i`, if there is one. */
  function ListAt(s: string, i: nat): (r: Option<string>)
    requires i <= |s|
    ensures r.Some? ==> ']' !in r.value && '\n' !in r.value
  {
    if !OccursAt(s, TEAM_MEMBERS_KEY, i) then None
    else
      var j := SkipSpace(s, i + |TEAM_MEMBERS_KEY|);
      if j == |s| || s[j] != '[' then None
      else
        var k := ListEnd(s, j + 1);
        if k == |s| || s[k] != ']' then None else Some(s[j + 1..k])
  }

  /** The list pattern at `i`, stated without the scanner: key, whitespace, `[`, a group without `]` or newline, `]`. */
  ghost predicate ListOccurrence(s: string, i: nat, j: nat, g: string)
  {
    && OccursAt(s, TEAM_MEMBERS_KEY, i)
    && i + |TEAM_MEMBERS_KEY| <= j
    && j + |g| + 1 < |s|
    && AllSpace(s[i + |TEAM_MEMBERS_KEY|..j])
    && s[j] == '['
    && s[j + 1..j + 1 + |g|] == g
    && ']' !in g && '\n' !in g
    && s[j + 1 + |g|] == ']'
  }

  lemma ListAtSound(s: string, i: nat)
    requires i <= |s| && ListAt(s, i).Some?
    ensures ListOccurrence(s, i, SkipSpace(s, i + |TEAM_MEMBERS_KEY|), ListAt(s, i).value)
  {
    var p := i + |TEAM_MEMBERS_KEY|;
    var j := SkipSpace(s, p);
    assert AllSpace(s[p..j]) by {
      forall t | 0 <= t < j - p ensures IsSpace(s[p..j][t]) { assert s[p..j][t] == s[p + t]; }
    }
    var k := ListEnd(s, j + 1);
    assert ListAt(s, i) == Some(s[j + 1..k]);
    assert j + 1 + |s[j + 1..k]| == k;
  }

  lemma ListAtComplete(s: string, i: nat, j: nat, g: string)
    requires ListOccurrence(s, i, j, g)
    ensures ListAt(s, i) == Some(g)
  {
    var p := i + |TEAM_MEMBERS_KEY|;
    forall t | p <= t < j ensures IsSpace(s[t]) { assert s[t] == s[p..j][t - p]; }
    SkipSpaceIs(s, p, j);
    var k := j + 1 + |g|;
    forall t | j + 1 <= t < k ensures s[t] != ']' && s[t] != '\n' { assert s[t] == g[t - j - 1]; }
    assert ListEnd(s, j + 1) == k;
  }

  /** `re.search` for the list pattern: the leftmost index at or after `i` where it matches. */
  function SearchList(s: string, i: nat): (r: Option<nat>)
    requires i <= |s|
    ensures r.Some? ==> i <= r.value <= |s| && ListAt(s, r.value).Some?
    ensures r.Some? ==> forall t :: i <= t < r.value ==> ListAt(s, t).None?
    ensures r.None? ==> forall t :: i <= t <= |s| ==> ListAt(s, t).None?
    decreases |s| - i
  {
    if ListAt(s, i).Some? then Some(i)
    else if i == |s| then None
    else SearchList(s, i + 1)
  }

  /** How often `c` occurs in `s`. */
  function Count(s: string, c: char): nat
    decreases |s|
  {
    if s == [] then 0 else (if s[0] == c then 1 else 0) + Count(s[1..], c)
  }

  lemma {:induction false} CountConcat(a: string, b: string, c: char)
    ensures Count(a + b, c) == Count(a, c) + Count(b, c)
    decreases |a|
  {
    if a == [] {
      assert a + b == b;
    } else {
      assert (a + b)[0] == a[0];
      assert (a + b)[1..] == a[1..] + b;
      CountConcat(a[1..], b, c);
    }
  }

  lemma {:induction false} CountAbsent(a: string, c: char)
    requires c !in a
    ensures Count(a, c) == 0
    decreases |a|
  {
    if a != [] {
      CountAbsent(a[1..], c);
    }
  }

  /**
   * `re.findall(r'"([^"]*)"', t)`: scanning left to right outside a quoted stretch, a quote
   * opens one; inside, the characters are collected until the closing quote, which yields
   * the collected text. A quote left open at the end yields nothing.
   */
  function Unquoted(t: string): seq<string>
    decreases |t|
  {
    if t == [] then []
    else if t[0] == '"' then Quoted(t[1..], "")
    else Unquoted(t[1..])
  }

  /** The rest of the findall scan inside a quoted stretch that has collected `acc` so far. */
  function Quoted(t: string, acc: string): seq<string>
    decreases |t|
  {
    if t == [] then []
    else if t[0] == '"' then [acc] + Unquoted(t[1..])
    else Quoted(t[1..], acc + [t[0]])
  }

  function FindAllQuoted(t: string): seq<string>
  {
    Unquoted(t)
  }

  /** Every found item is quote-free, and there are half as many items as quotes, rounded down. */
  lemma {:induction false} UnquotedShape(t: string)
    ensures forall m :: m in Unquoted(t) ==> QuoteFree(m)
    ensures |Unquoted(t)| == Count(t, '"') / 2
    decreases |t|, 1
  {
    if t != [] {
      if t[0] == '"' {
        QuotedShape(t[1..], "");
      } else {
        UnquotedShape(t[1..]);
      }
    }
  }

  /** Inside a quoted stretch one more item is found per pair of quotes, counting the open one. */
  lemma {:induction false} QuotedShape(t: string, acc: string)
    requires QuoteFree(acc)
    ensures forall m :: m in Quoted(t, acc) ==> QuoteFree(m)
    ensures |Quoted(t, acc)| == (Count(t, '"') + 1) / 2
    decreases |t|, 0
  {
    if t != [] {
      if t[0] == '"' {
        UnquotedShape(t[1..]);
      } else {
        QuotedShape(t[1..], acc + [t[0]]);
      }
    }
  }

  lemma FindAllQuotedShape(t: string)
    ensures forall m :: m in FindAllQuoted(t) ==> QuoteFree(m)
    ensures |FindAllQuoted(t)| == Count(t, '"') / 2
  {
    UnquotedShape(t);
  }

  /** A character absent from the searched text is absent from every item found in it. */
  lemma {:induction false} UnquotedWithout(t: string, c: char)
    requires c !in t
    ensures forall m :: m in Unquoted(t) ==> c !in m
    decreases |t|, 1
  {
    if t != [] {
      if t[0] == '"' {
        QuotedWithout(t[1..], "", c);
      } else {
        UnquotedWithout(t[1..], c);
      }
    }
  }

  lemma {:induction false} QuotedWithout(t: string, acc: string, c: char)
    requires c !in t && c !in acc
    ensures forall m :: m in Quoted(t, acc) ==> c !in m
    decreases |t|, 0
  {
    if t != [] {
      if t[0] == '"' {
        UnquotedWithout(t[1..], c);
      } else {
        QuotedWithout(t[1..], acc + [t[0]], c);
      }
    }
  }

  /** `extract_team_members`: the quoted names inside the leftmost bracket group, or `[]` when there is none. */
  function ExtractTeamMembers(content: string): (r: seq<string>)
    ensures forall m :: m in r ==> QuoteFree(m) && ']' !in m && '\n' !in m
  {
    match SearchList(content, 0)
    case Some(i) =>
      var g := ListAt(content, i).value;
      FindAllQuotedShape(g);
      UnquotedWithout(g, ']');
      UnquotedWithout(g, '\n');
      FindAllQuoted(g)
    case None => []
  }

  /** The search stops at the first index where the list pattern matches. */
  lemma SearchListLeftmost(s: string, i: nat)
    requires i <= |s| && ListAt(s, i).Some?
    requires forall t :: 0 <= t < i ==> ListAt(s, t).None?
    ensures SearchList(s, 0) == Some(i)
  {
    var r := SearchList(s, 0);
    assert r.Some?;
    assert !(r.value < i);
    assert !(r.value > i);
  }

  /** The names are those of the leftmost bracket group. */
  lemma ExtractTeamMembersLeftmost(content: string, i: nat)
    requires i <= |content| && ListAt(content, i).Some?
    requires forall t :: 0 <= t < i ==> ListAt(content, t).None?
    ensures ExtractTeamMembers(content) == FindAllQuoted(ListAt(content, i).value)
  {
    SearchListLeftmost(content, i);
  }

  /** Without a bracket group there are no names. */
  lemma ExtractTeamMembersNoMatch(content: string)
    requires forall i :: 0 <= i <= |content| ==> ListAt(content, i).None?
    ensures ExtractTeamMembers(content) == []
  {
    assert SearchList(content, 0).None?;
  }

  /** Each name written between quotes. */
  function Quote(items: seq<string>): (r: seq<string>)
    ensures |r| == |items|
    ensures forall i :: 0 <= i < |items| ==> r[i] == "\"" + items[i] + "\""
  {
    seq(|items|, i requires 0 <= i < |items| => "\"" + items[i] + "\"")
  }

  /** Quote-free text before the first quote adds nothing to the found items. */
  lemma {:induction false} UnquotedSkip(a: string, t: string)
    requires QuoteFree(a)
    ensures Unquoted(a + t) == Unquoted(t)
    decreases |a|
  {
    if a == [] {
      assert a + t == t;
    } else {
      assert (a + t)[0] == a[0];
      assert (a + t)[1..] == a[1..] + t;
      UnquotedSkip(a[1..], t);
    }
  }

  /** Inside a quoted stretch, quote-free text and the closing quote complete one item. */
  lemma {:induction false} QuotedClose(m: string, t: string, acc: string)
    requires QuoteFree(m)
    ensures Quoted(m + "\"" + t, acc) == [acc + m] + Unquoted(t)
    decreases |m|
  {
    var s := m + "\"" + t;
    if m == [] {
      assert s == "\"" + t;
      assert s[1..] == t;
      assert acc + m == acc;
    } else {
      assert s[0] == m[0];
      assert s[1..] == m[1..] + "\"" + t;
      QuotedClose(m[1..], t, acc + [m[0]]);
      assert acc + [m[0]] + m[1..] == acc + m;
    }
  }

  /** The findall step over a list written as `"a", "b", ...` gives its names back. */
  lemma {:induction false} FindAllQuotedOfList(items: seq<string>, rest: string)
    requires forall i :: 0 <= i < |items| ==> QuoteFree(items[i])
    requires QuoteFree(rest)
    ensures FindAllQuoted(Join(Quote(items), ", ") + rest) == items
    decreases |items|
  {
    if items == [] {
      assert Join(Quote(items), ", ") + rest == rest + [];
      UnquotedSkip(rest, []);
    } else {
      var m := items[0];
      var tail := if |items| == 1 then rest else ", " + (Join(Quote(items[1..]), ", ") + rest);
      var s := Join(Quote(items), ", ") + rest;
      if |items| > 1 {
        assert Quote(items)[1..] == Quote(items[1..]);
      }
      assert s == "\"" + (m + "\"" + tail);
      assert Unquoted(s) == Quoted(m + "\"" + tail, "");
      QuotedClose(m, tail, "");
      assert "" + m == m;
      if |items| == 1 {
        assert tail == rest + [];
        UnquotedSkip(rest, []);
      } else {
        FindAllQuotedOfList(items[1..], rest);
        UnquotedSkip(", ", Join(Quote(items[1..]), ", ") + rest);
      }
      assert [m] + items[1..] == items;
    }
  }

  /** A document that opens with a team list written as `team_members: ["a", "b", ...]` yields exactly those names. */
  lemma ExtractLeadingTeamMembers(ws: string, items: seq<string>, rest: string)
    requires AllSpace(ws)
    requires forall i :: 0 <= i < |items| ==> QuoteFree(items[i]) && ']' !in items[i] && '\n' !in items[i]
    ensures ExtractTeamMembers(TEAM_MEMBERS_KEY + ws + "[" + Join(Quote(items), ", ") + "]" + rest) == items
  {
    var g := Join(Quote(items), ", ");
    var s := TEAM_MEMBERS_KEY + ws + "[" + g + "]" + rest;
    var j := |TEAM_MEMBERS_KEY| + |ws|;
    var q := Quote(items);
    forall i | 0 <= i < |q| ensures ']' !in q[i] && '\n' !in q[i] {
      assert q[i] == "\"" + items[i] + "\"";
    }
    JoinFree(q, ", ", ']');
    JoinFree(q, ", ", '\n');
    assert s[..|TEAM_MEMBERS_KEY|] == TEAM_MEMBERS_KEY;
    assert s[|TEAM_MEMBERS_KEY|..j] == ws;
    assert s[j + 1..j + 1 + |g|] == g;
    assert ListOccurrence(s, 0, j, g);
    ListAtComplete(s, 0, j, g);
    ExtractTeamMembersLeftmost(s, 0);
    FindAllQuotedOfList(items, "");
    assert g + "" == g;
  }
}
