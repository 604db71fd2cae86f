/**
 * Running the script again on the README it wrote. Because the event details and the
 * resources are read back out of the previous README, a re-run must find there exactly
 * the sections it wrote; this module proves that it does under the corrected pattern, so
 * that regenerating the README changes nothing but the time stamp, the tables and the
 * statistics, and shows where the pattern as the script writes it goes wrong.
 */
module Regeneration {
  import opened Wrappers
  import opened Text
  import opened Records
  import opened Sections
  import opened Readme

  /** One step of `"\n".join`: the item at `k`, the separator, then the join of the rest. */
  lemma JoinStep(items: seq<string>, k: nat, sep: string)
    requires k + 1 < |items|
    ensures Join(items[k..], sep) == items[k] + sep + Join(items[k + 1..], sep)
  {
    assert items[k..][1..] == items[k + 1..];
  }

  /** The same step behind a prefix that is already laid out. */
  lemma JoinPeel(items: seq<string>, k: nat, sep: string, prefix: string)
    requires k + 1 < |items|
    ensures prefix + Join(items[k..], sep) == prefix + items[k] + sep + Join(items[k + 1..], sep)
  {
    JoinStep(items, k, sep);
    AppendAssoc(prefix, items[k], sep);
    AppendAssoc(prefix + items[k], sep, Join(items[k + 1..], sep));
    AppendAssoc(prefix, items[k] + sep, Join(items[k + 1..], sep));
  }

  /** The first twelve lines of a joined text laid out one by one. */
  lemma PeelLines(L: seq<string>)
    requires |L| >= 13
    ensures Join(L, "\n") ==
              L[0] + "\n" + L[1] + "\n" + L[2] + "\n" + L[3] + "\n" +
              L[4] + "\n" + L[5] + "\n" + L[6] + "\n" + L[7] + "\n" + Join(L[8..], "\n")
    ensures Join(L, "\n") ==
              L[0] + "\n" + L[1] + "\n" + L[2] + "\n" + L[3] + "\n" +
              L[4] + "\n" + L[5] + "\n" + L[6] + "\n" + L[7] + "\n" +
              L[8] + "\n" + L[9] + "\n" + L[10] + "\n" + L[11] + "\n" + Join(L[12..], "\n")
  {
    assert L[0..] == L;
    JoinStep(L, 0, "\n");
    var p := L[0] + "\n";
    JoinPeel(L, 1, "\n", p);
    p := p + L[1] + "\n";
    JoinPeel(L, 2, "\n", p);
    p := p + L[2] + "\n";
    JoinPeel(L, 3, "\n", p);
    p := p + L[3] + "\n";
    JoinPeel(L, 4, "\n", p);
    p := p + L[4] + "\n";
    JoinPeel(L, 5, "\n", p);
    p := p + L[5] + "\n";
    JoinPeel(L, 6, "\n", p);
    p := p + L[6] + "\n";
    JoinPeel(L, 7, "\n", p);
    p := p + L[7] + "\n";
    JoinPeel(L, 8, "\n", p);
    p := p + L[8] + "\n";
    JoinPeel(L, 9, "\n", p);
    p := p + L[9] + "\n";
    JoinPeel(L, 10, "\n", p);
    p := p + L[10] + "\n";
    JoinPeel(L, 11, "\n", p);
  }

  /** The lines before the event details heading have no `##` and end in a newline. */
  lemma TitlePairFree(l0: string, l1: string, l2: string, l3: string)
    requires l0 == "# " + HACKATHON_NAME && l1 == "" && l2 == "Welcome to the " + HACKATHON_NAME + "!" && l3 == ""
    ensures var a := l0 + "\n" + l1 + "\n" + l2 + "\n" + l3 + "\n";
            PairFree(a) && a[|a| - 1] == '\n'
  {
    assert '#' !in HACKATHON_NAME;
    assert '#' !in "Welcome to the ";
    assert '#' !in "!";
    assert PairFree("# ");
    HashFreePairFree(HACKATHON_NAME);
    HashFreePairFree("Welcome to the " + HACKATHON_NAME + "!");
    HashFreePairFree("\n");
    PairFreeConcat("# ", HACKATHON_NAME);
    var a := l0;
    PairFreeConcat(a, "\n");
    a := a + "\n";
    PairFreeConcat(a, l1);
    a := a + l1;
    PairFreeConcat(a, "\n");
    a := a + "\n";
    PairFreeConcat(a, l2);
    a := a + l2;
    PairFreeConcat(a, "\n");
    a := a + "\n";
    PairFreeConcat(a, l3);
    a := a + l3;
    PairFreeConcat(a, "\n");
  }

  /** A section block the script writes has `##` only at its heading. */
  lemma BlockPairFreeExcept(a: string, heading: string, v: string)
    requires PairFree(a) && |a| > 0 && a[|a| - 1] == '\n'
    requires PairFreeExcept(heading, 0) && |heading| >= 2
    requires PairFree(v)
    ensures var x := a + heading + "\n" + "" + "\n" + v + "\n" + "" + "\n";
            PairFreeExcept(x, |a|) && x[|x| - 1] == '\n'
  {
    HashFreePairFree("\n");
    PairFreeThenHeading(a, heading);
    var x := a + heading;
    PairFreeExceptConcat(x, "\n", |a|);
    x := x + "\n";
    PairFreeExceptConcat(x, "", |a|);
    x := x + "";
    PairFreeExceptConcat(x, "\n", |a|);
    x := x + "\n";
    PairFreeExceptConcat(x, v, |a|);
    x := x + v;
    PairFreeExceptConcat(x, "\n", |a|);
    x := x + "\n";
    PairFreeExceptConcat(x, "", |a|);
    x := x + "";
    PairFreeExceptConcat(x, "\n", |a|);
  }

  /** The text after a section block starts with the next line, here a heading. */
  lemma TailStartsWith(L: seq<string>, k: nat, prefix: nat)
    requires k < |L| && prefix <= |L[k]|
    ensures StartsWith(Join(L[k..], "\n"), L[k][..prefix])
  {
    JoinStartsWith(L[k..], "\n");
    StartsWithPrefix(Join(L[k..], "\n"), L[k], prefix);
  }

  /** The four lines before the first section, joined with their newlines. */
  function TitleText(L: seq<string>): string
    requires |L| >= 4
  {
    L[0] + "\n" + L[1] + "\n" + L[2] + "\n" + L[3] + "\n"
  }

  /**
   * The lines of a README as the script lays them out: a title that has no `##` and ends
   * in a newline, then each of the two sections as its heading, a blank line, its text
   * and a blank line.
   */
  predicate LaidOut(L: seq<string>, ed: string, res: string) {
    && |L| >= 13
    && PairFree(TitleText(L)) && TitleText(L)[|TitleText(L)| - 1] == '\n'
    && L[4] == EVENT_DETAILS_HEADING && L[5] == "" && L[6] == ed && L[7] == ""
    && L[8] == RESOURCES_HEADING && L[9] == "" && L[10] == res && L[11] == ""
    && |L[12]| >= 3 && L[12][..3] == "## "
  }

  lemma DocumentLinesLaidOut(ed: string, res: string, pt: string, dt: string, st: Statistics, ts: string)
    ensures LaidOut(DocumentLines(ed, res, pt, dt, st, ts), ed, res)
  {
    var L := DocumentLines(ed, res, pt, dt, st, ts);
    TitlePairFree(L[0], L[1], L[2], L[3]);
    assert L[12][..3] == "## ";
  }

  /** The event details of lines laid out as the script lays them out read back as written. */
  lemma FirstSectionReadBack(L: seq<string>, ed: string, res: string)
    requires LaidOut(L, ed, res)
    requires Stripped(ed) && PairFree(ed)
    ensures Section(Join(L, "\n"), EVENT_DETAILS_HEADING) == ed
    ensures ed != "" ==> SectionAsWritten(Join(L, "\n"), EVENT_DETAILS_HEADING) == ed
  {
    var s := Join(L, "\n");
    var heading := EVENT_DETAILS_HEADING;
    PeelLines(L);
    var a := TitleText(L);
    var tail := Join(L[8..], "\n");
    assert s == a + heading + "\n" + "" + "\n" + ed + "\n" + "" + "\n" + tail;
    WrittenLayout(s, a, heading, ed, tail);
    NoMatchInPrefix(s, a, heading, -1);
    TailStartsWith(L, 8, 2);
    CaptureSection(s, a, heading, ed, tail);
  }

  /** The event details the script wrote are what a re-run reads back. */
  lemma EventDetailsReadBack(ed: string, res: string, pt: string, dt: string, st: Statistics, ts: string)
    requires Stripped(ed) && PairFree(ed)
    ensures Section(Document(ed, res, pt, dt, st, ts), EVENT_DETAILS_HEADING) == ed
    ensures ed != "" ==> SectionAsWritten(Document(ed, res, pt, dt, st, ts), EVENT_DETAILS_HEADING) == ed
  {
    DocumentLinesLaidOut(ed, res, pt, dt, st, ts);
    FirstSectionReadBack(DocumentLines(ed, res, pt, dt, st, ts), ed, res);
  }

  /** The event details block keeps the resources heading from matching before its own line. */
  lemma NoResourcesBefore(s: string, a: string, ed: string)
    requires PairFree(a) && |a| > 0 && a[|a| - 1] == '\n' && PairFree(ed)
    requires var a' := a + EVENT_DETAILS_HEADING + "\n" + "" + "\n" + ed + "\n" + "" + "\n";
             |a'| <= |s| && s[..|a'|] == a'
    ensures var a' := a + EVENT_DETAILS_HEADING + "\n" + "" + "\n" + ed + "\n" + "" + "\n";
            forall t :: 0 <= t < |a'| ==> !OccursAt(s, RESOURCES_HEADING, t)
  {
    var a' := a + EVENT_DETAILS_HEADING + "\n" + "" + "\n" + ed + "\n" + "" + "\n";
    HeadingsPairFreeExceptStart();
    BlockPairFreeExcept(a, EVENT_DETAILS_HEADING, ed);
    assert s[|a| + 3] == a'[|a| + 3] == EVENT_DETAILS_HEADING[3];
    OccursAtChar(s, RESOURCES_HEADING, |a|, 3);
    NoMatchInPrefix(s, a', RESOURCES_HEADING, |a|);
  }

  /** The second of two written sections reads back as written. */
  lemma SecondSectionAt(s: string, a: string, ed: string, res: string, tail: string)
    requires s == a + EVENT_DETAILS_HEADING + "\n" + "" + "\n" + ed + "\n" + "" + "\n" +
                  RESOURCES_HEADING + "\n" + "" + "\n" + res + "\n" + "" + "\n" + tail
    requires PairFree(a) && |a| > 0 && a[|a| - 1] == '\n' && PairFree(ed)
    requires Stripped(res) && PairFree(res) && StartsWith(tail, "##")
    ensures Section(s, RESOURCES_HEADING) == res
    ensures res != "" ==> SectionAsWritten(s, RESOURCES_HEADING) == res
  {
    var a' := a + EVENT_DETAILS_HEADING + "\n" + "" + "\n" + ed + "\n" + "" + "\n";
    WrittenLayout(s, a', RESOURCES_HEADING, res, tail);
    NoResourcesBefore(s, a, ed);
    CaptureSection(s, a', RESOURCES_HEADING, res, tail);
  }

  /** The resources of lines laid out as the script lays them out read back as written. */
  lemma SecondSectionReadBack(L: seq<string>, ed: string, res: string)
    requires LaidOut(L, ed, res)
    requires PairFree(ed) && Stripped(res) && PairFree(res)
    ensures Section(Join(L, "\n"), RESOURCES_HEADING) == res
    ensures res != "" ==> SectionAsWritten(Join(L, "\n"), RESOURCES_HEADING) == res
  {
    PeelLines(L);
    assert L[12][..2] == L[12][..3][..2];
    TailStartsWith(L, 12, 2);
    SecondSectionAt(Join(L, "\n"), TitleText(L), ed, res, Join(L[12..], "\n"));
  }

  /** The resources the script wrote are what a re-run reads back. */
  lemma ResourcesReadBack(ed: string, res: string, pt: string, dt: string, st: Statistics, ts: string)
    requires PairFree(ed) && Stripped(res) && PairFree(res)
    ensures Section(Document(ed, res, pt, dt, st, ts), RESOURCES_HEADING) == res
    ensures res != "" ==> SectionAsWritten(Document(ed, res, pt, dt, st, ts), RESOURCES_HEADING) == res
  {
    DocumentLinesLaidOut(ed, res, pt, dt, st, ts);
    SecondSectionReadBack(DocumentLines(ed, res, pt, dt, st, ts), ed, res);
  }

  /** Reading the sections back out of a written README gives the sections written into it. */
  lemma PreservedRoundTrip(ed: string, res: string, pt: string, dt: string, st: Statistics, ts: string)
    requires Stripped(ed) && PairFree(ed) && Stripped(res) && PairFree(res)
    ensures PreservedSections(Some(Document(ed, res, pt, dt, st, ts))) == (ed, res)
  {
    EventDetailsReadBack(ed, res, pt, dt, st, ts);
    ResourcesReadBack(ed, res, pt, dt, st, ts);
  }

  /** The sections a run keeps are the ones the next run keeps, whatever the records. */
  lemma SectionsSurviveRegeneration(regs: seq<Record>, demos: seq<Record>, previous: Option<string>, ts: string)
    ensures PreservedSections(Some(ReadmeText(regs, demos, previous, ts))) == PreservedSections(previous)
  {
    var sections := PreservedSections(previous);
    PreservedRoundTrip(sections.0, sections.1, ParticipantsTable(regs), ProjectsTable(demos), StatisticsOf(regs), ts);
  }

  /**
   * Running the script on the README it wrote gives what running it on the previous
   * README would have given: only the records and the time stamp make a difference.
   */
  lemma RegenerationIsIdempotent(regs: seq<Record>, demos: seq<Record>, regs': seq<Record>, demos': seq<Record>,
                                 previous: Option<string>, ts: string, ts': string)
    ensures ReadmeText(regs', demos', Some(ReadmeText(regs, demos, previous, ts)), ts') ==
            ReadmeText(regs', demos', previous, ts')
  {
    SectionsSurviveRegeneration(regs, demos, previous, ts);
  }

  // ---------------------------------------------------------------------------
  // The section pattern as the script writes it

  /**
   * With its own pattern, the script reads an empty event details section it wrote as
   * the text from the resources heading on, where the corrected pattern reads it as empty.
   */
  lemma EmptyEventDetailsAsWritten(res: string, pt: string, dt: string, st: Statistics, ts: string)
    ensures StartsWith(SectionAsWritten(Document("", res, pt, dt, st, ts), EVENT_DETAILS_HEADING), "##")
    ensures Section(Document("", res, pt, dt, st, ts), EVENT_DETAILS_HEADING) == ""
  {
    var L := DocumentLines("", res, pt, dt, st, ts);
    DocumentLinesLaidOut("", res, pt, dt, st, ts);
    EmptyFirstSection(L, res);
  }

  lemma EmptyFirstSection(L: seq<string>, res: string)
    requires LaidOut(L, "", res)
    ensures StartsWith(SectionAsWritten(Join(L, "\n"), EVENT_DETAILS_HEADING), "##")
    ensures Section(Join(L, "\n"), EVENT_DETAILS_HEADING) == ""
  {
    var s := Join(L, "\n");
    var heading := EVENT_DETAILS_HEADING;
    PeelLines(L);
    var a := TitleText(L);
    var tail := Join(L[8..], "\n");
    assert s == a + heading + "\n" + "" + "\n" + "" + "\n" + "" + "\n" + tail;
    WrittenLayout(s, a, heading, "", tail);
    NoMatchInPrefix(s, a, heading, -1);
    assert RESOURCES_HEADING[..3] == "## ";
    TailStartsWith(L, 8, 3);
    CaptureEmptySectionAsWritten(s, a, heading, tail);
  }

  /** A previous README without the section headings gives two empty sections, under either pattern. */
  lemma NoHeadingsNoSections(s: string)
    requires !Contains(s, EVENT_DETAILS_HEADING) && !Contains(s, RESOURCES_HEADING)
    ensures PreservedSectionsAsWritten(Some(s)) == ("", "")
    ensures PreservedSections(Some(s)) == ("", "")
  {
    MissingHeadingEmptySection(s, EVENT_DETAILS_HEADING);
    MissingHeadingEmptySection(s, RESOURCES_HEADING);
  }

  /**
   * The script as written does not keep its sections: after one run on a README without
   * the event details heading, the next run reads different event details out of the
   * README the first wrote, so running it twice differs from running it once.
   */
  lemma AsWrittenRegenerationLosesEventDetails(regs: seq<Record>, demos: seq<Record>, s: string, ts: string)
    requires !Contains(s, EVENT_DETAILS_HEADING)
    ensures var first := ReadmeTextAsWritten(regs, demos, Some(s), ts);
            && PreservedSectionsAsWritten(Some(first)).0 != PreservedSectionsAsWritten(Some(s)).0
            && StartsWith(PreservedSectionsAsWritten(Some(first)).0, "##")
  {
    MissingHeadingEmptySection(s, EVENT_DETAILS_HEADING);
    EmptyEventDetailsAsWritten(SectionAsWritten(s, RESOURCES_HEADING), ParticipantsTable(regs), ProjectsTable(demos), StatisticsOf(regs), ts);
  }

  /** The as-written pattern agrees with the corrected one on the sections it wrote when neither is empty. */
  lemma AsWrittenAgreesOnNonEmptySections(ed: string, res: string, pt: string, dt: string, st: Statistics, ts: string)
    requires Stripped(ed) && PairFree(ed) && Stripped(res) && PairFree(res)
    requires ed != "" && res != ""
    ensures PreservedSectionsAsWritten(Some(Document(ed, res, pt, dt, st, ts))) == (ed, res)
  {
    EventDetailsReadBack(ed, res, pt, dt, st, ts);
    ResourcesReadBack(ed, res, pt, dt, st, ts);
  }
}
