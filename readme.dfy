/**
 * `generate_hackathon_readme`: the hackathon README built from the registrations, the
 * demos and the two sections kept from the previous README.
 *
 * The README is a list of 28 items joined with newlines: a title, the event details and
 * resources sections, a participants table, a projects table, four statistics and a time
 * stamp. The tables and the sections are single items that may hold newlines of their own.
 * The file system is left out: the previous README is a parameter (`None` when reading it
 * raises), the text the script writes is the method's result, and the clock reading is
 * the `timestamp` parameter.
 */
module Readme {
  import opened Wrappers
  import opened Text
  import opened Fields
  import opened Records
  import opened Sections

  const HACKATHON_NAME := "7702 Hackathon"
  const PARTICIPANTS_HEADING := "## Participants"
  const PROJECTS_HEADING := "## Projects"
  const STATISTICS_HEADING := "## Statistics"
  const PARTICIPANTS_HEADER := "| Username | Contact | Role | Team |\n" + "|----------|---------|------|------|\n"
  const PROJECTS_HEADER := "| Project Name | Description | Link | Team Members |\n" + "|--------------|-------------|------|-------------|\n"

  // ---------------------------------------------------------------------------
  // The participants table and the statistics

  /** One participants-table row, with `reg.get(key, 'N/A')` for each column. */
  function ParticipantRow(reg: Record): string
  {
    "| " + Username(reg) + " | " + Contact(reg) + " | " + Role(reg) + " | " + TeamName(reg) + " |\n"
  }

  /** The rows of all registrations, in order. */
  function ParticipantRows(regs: seq<Record>): string
    decreases |regs|
  {
    if regs == [] then "" else ParticipantRows(regs[..|regs| - 1]) + ParticipantRow(regs[|regs| - 1])
  }

  lemma ParticipantRowsSnoc(regs: seq<Record>, i: nat)
    requires i < |regs|
    ensures ParticipantRows(regs[..i + 1]) == ParticipantRows(regs[..i]) + ParticipantRow(regs[i])
  {
    assert regs[..i + 1][..i] == regs[..i];
  }

  function ParticipantsTable(regs: seq<Record>): string
  {
    PARTICIPANTS_HEADER + ParticipantRows(regs)
  }

  /** `if team_name and team_name != 'N/A'`: a team name that counts towards the teams. */
  predicate CountsAsTeam(teamName: string) {
    teamName != "" && teamName != NOT_AVAILABLE
  }

  /** The set of team names. */
  function Teams(regs: seq<Record>): set<string>
    decreases |regs|
  {
    if regs == [] then {}
    else
      var t := TeamName(regs[|regs| - 1]);
      Teams(regs[..|regs| - 1]) + (if CountsAsTeam(t) then {t} else {})
  }

  /** A role that counts as a developer: it mentions "developer" in any letter case. */
  predicate IsDeveloper(role: string) {
    role != "" && Contains(Lower(role), "developer")
  }

  /** A role that counts as a designer: the `elif` branch, taken only when the role is not a developer's. */
  predicate IsDesigner(role: string) {
    role != "" && !Contains(Lower(role), "developer") && Contains(Lower(role), "designer")
  }

  /** The number of registrations that pass `test`, counted as the loop counts them, front to back. */
  function CountWhere(regs: seq<Record>, test: Record -> bool): nat
    decreases |regs|
  {
    if regs == [] then 0
    else CountWhere(regs[..|regs| - 1], test) + (if test(regs[|regs| - 1]) then 1 else 0)
  }

  /** `developers`: the registrations whose role passes the developer test. */
  function Developers(regs: seq<Record>): nat
  {
    CountWhere(regs, reg => IsDeveloper(Role(reg)))
  }

  /** `designers`: the registrations whose role passes the designer test. */
  function Designers(regs: seq<Record>): nat
  {
    CountWhere(regs, reg => IsDesigner(Role(reg)))
  }

  datatype Statistics = Statistics(participants: nat, teams: nat, developers: nat, designers: nat)

  function StatisticsOf(regs: seq<Record>): Statistics
  {
    Statistics(|regs|, |Teams(regs)|, Developers(regs), Designers(regs))
  }

  // ---------------------------------------------------------------------------
  // The projects table

  /** One projects-table row; the team members are joined with ", ". */
  function ProjectRow(demo: Record): string
  {
    "| " + ProjectName(demo) + " | " + Description(demo) + " | " + ProjectLink(demo) + " | " +
    Join(TeamMembers(demo), ", ") + " |\n"
  }

  function ProjectRows(demos: seq<Record>): string
    decreases |demos|
  {
    if demos == [] then "" else ProjectRows(demos[..|demos| - 1]) + ProjectRow(demos[|demos| - 1])
  }

  lemma ProjectRowsSnoc(demos: seq<Record>, i: nat)
    requires i < |demos|
    ensures ProjectRows(demos[..i + 1]) == ProjectRows(demos[..i]) + ProjectRow(demos[i])
  {
    assert demos[..i + 1][..i] == demos[..i];
  }

  function ProjectsTable(demos: seq<Record>): string
  {
    PROJECTS_HEADER + ProjectRows(demos)
  }

  // ---------------------------------------------------------------------------
  // The document

  /** The 28 items of the script's `content` list, in order; an item may itself hold newlines. */
  function DocumentLines(eventDetails: string, resources: string, participantsTable: string,
                         projectsTable: string, stats: Statistics, timestamp: string): (r: seq<string>)
    ensures |r| == 28
  {
    [ "# " + HACKATHON_NAME, "", "Welcome to the " + HACKATHON_NAME + "!", "",
      EVENT_DETAILS_HEADING, "", eventDetails, "",
      RESOURCES_HEADING, "", resources, "",
      PARTICIPANTS_HEADING, "", participantsTable, "",
      PROJECTS_HEADING, "", projectsTable, "",
      STATISTICS_HEADING, "",
      "- **Total Participants**: " + NatToString(stats.participants),
      "- **Teams**: " + NatToString(stats.teams),
      "- **Developers**: " + NatToString(stats.developers),
      "- **Designers**: " + NatToString(stats.designers),
      "",
      "*Last updated: " + timestamp + "*" ]
  }

  function Document(eventDetails: string, resources: string, participantsTable: string,
                    projectsTable: string, stats: Statistics, timestamp: string): string
  {
    Join(DocumentLines(eventDetails, resources, participantsTable, projectsTable, stats, timestamp), "\n")
  }

  /** The text the script writes to the README, with the sections read by the corrected pattern `(.*?)`. */
  function ReadmeText(regs: seq<Record>, demos: seq<Record>, previous: Option<string>, timestamp: string): string
  {
    var sections := PreservedSections(previous);
    Document(sections.0, sections.1, ParticipantsTable(regs), ProjectsTable(demos), StatisticsOf(regs), timestamp)
  }

  /** The text the script writes to the README, with the sections read by its own pattern `(.+?)`. */
  function ReadmeTextAsWritten(regs: seq<Record>, demos: seq<Record>, previous: Option<string>, timestamp: string): string
  {
    var sections := PreservedSectionsAsWritten(previous);
    Document(sections.0, sections.1, ParticipantsTable(regs), ProjectsTable(demos), StatisticsOf(regs), timestamp)
  }

  datatype HackathonInfo = HackathonInfo(name: string, participants: nat, projects: nat)

  /**
   * The loop over the registrations: the participants table and the statistics, from
   * one pass that appends a row and updates the team set and the role counters.
   */
  method TabulateParticipants(registrations: seq<Record>) returns (participantsTable: string, stats: Statistics)
    ensures participantsTable == ParticipantsTable(registrations)
    ensures stats == StatisticsOf(registrations)
  {
    participantsTable := PARTICIPANTS_HEADER;
    var totalParticipants := |registrations|;
    var teams: set<string> := {};
    var developers, designers := 0, 0;
    assert registrations[..0] == [];
    AppendEmpty(PARTICIPANTS_HEADER);
    for i := 0 to |registrations|
      invariant participantsTable == PARTICIPANTS_HEADER + ParticipantRows(registrations[..i])
      invariant teams == Teams(registrations[..i])
      invariant developers == Developers(registrations[..i])
      invariant designers == Designers(registrations[..i])
    {
      var reg := registrations[i];
      ParticipantsStep(registrations, i);
      participantsTable := participantsTable + ParticipantRow(reg);
      teams := AddTeam(registrations, i, teams);
      developers, designers := TallyRole(registrations, i, developers, designers);
    }
    stats := Statistics(totalParticipants, |teams|, developers, designers);
    WholePrefix(registrations);
  }

  lemma WholePrefix(regs: seq<Record>)
    ensures regs[..|regs|] == regs
  {
  }

  /** One more registration adds its row to the table. */
  lemma ParticipantsStep(regs: seq<Record>, i: nat)
    requires i < |regs|
    ensures PARTICIPANTS_HEADER + ParticipantRows(regs[..i + 1]) ==
            PARTICIPANTS_HEADER + ParticipantRows(regs[..i]) + ParticipantRow(regs[i])
  {
    ParticipantRowsSnoc(regs, i);
    AppendAssoc(PARTICIPANTS_HEADER, ParticipantRows(regs[..i]), ParticipantRow(regs[i]));
  }

  /** `if team_name and team_name != 'N/A': teams.add(team_name)` for the registration at `i`. */
  method AddTeam(regs: seq<Record>, i: nat, teams: set<string>) returns (teams': set<string>)
    requires i < |regs| && teams == Teams(regs[..i])
    ensures teams' == Teams(regs[..i + 1])
  {
    assert regs[..i + 1][..i] == regs[..i];
    var teamName := TeamName(regs[i]);
    teams' := teams;
    if teamName != "" && teamName != NOT_AVAILABLE {
      teams' := teams' + {teamName};
    }
  }

  /** The role counters' update for the registration at `i`: `developer` first, `designer` only otherwise. */
  method TallyRole(regs: seq<Record>, i: nat, developers: nat, designers: nat) returns (developers': nat, designers': nat)
    requires i < |regs| && developers == Developers(regs[..i]) && designers == Designers(regs[..i])
    ensures developers' == Developers(regs[..i + 1]) && designers' == Designers(regs[..i + 1])
  {
    DevelopersSnoc(regs, i);
    DesignersSnoc(regs, i);
    var role := Role(regs[i]);
    developers', designers' := developers, designers;
    if role != "" {
      var roleLower := Lower(role);
      if Contains(roleLower, "developer") {
        developers' := developers' + 1;
      } else if Contains(roleLower, "designer") {
        designers' := designers' + 1;
      }
    }
  }

  /** The loop over the demos: the projects table, one row per demo. */
  method TabulateProjects(demos: seq<Record>) returns (projectsTable: string)
    ensures projectsTable == ProjectsTable(demos)
  {
    projectsTable := PROJECTS_HEADER;
    assert demos[..0] == [];
    AppendEmpty(PROJECTS_HEADER);
    for i := 0 to |demos|
      invariant projectsTable == PROJECTS_HEADER + ProjectRows(demos[..i])
    {
      ProjectRowsSnoc(demos, i);
      AppendAssoc(PROJECTS_HEADER, ProjectRows(demos[..i]), ProjectRow(demos[i]));
      projectsTable := projectsTable + ProjectRow(demos[i]);
    }
    assert demos[..|demos|] == demos;
  }

  /**
   * `generate_hackathon_readme(registrations, demos)`: returns the text written to the
   * README and the summary the script returns. With `asWritten` the previous sections are
   * read with the script's own pattern; without it, with the corrected one.
   */
  method GenerateHackathonReadme(registrations: seq<Record>, demos: seq<Record>,
                                 previous: Option<string>, timestamp: string, asWritten: bool)
    returns (written: string, info: HackathonInfo)
    ensures asWritten ==> written == ReadmeTextAsWritten(registrations, demos, previous, timestamp)
    ensures !asWritten ==> written == ReadmeText(registrations, demos, previous, timestamp)
    ensures info == HackathonInfo(HACKATHON_NAME, |registrations|, |demos|)
  {
    var sections := if asWritten then PreservedSectionsAsWritten(previous) else PreservedSections(previous);
    var eventDetails, resources := sections.0, sections.1;
    var participantsTable, stats := TabulateParticipants(registrations);
    var projectsTable := TabulateProjects(demos);
    written := Join(DocumentLines(eventDetails, resources, participantsTable, projectsTable, stats, timestamp), "\n");
    info := HackathonInfo(HACKATHON_NAME, stats.participants, |demos|);
  }

  // ---------------------------------------------------------------------------
  // Properties of the tables and the statistics

  /** A team is counted exactly when some registration names it and the name is neither empty nor "N/A". */
  lemma TeamsMembership(regs: seq<Record>, t: string)
    ensures t in Teams(regs) <==> CountsAsTeam(t) && exists k :: 0 <= k < |regs| && TeamName(regs[k]) == t
  {
    if t in Teams(regs) {
      TeamsSound(regs, t);
    }
    if exists k :: 0 <= k < |regs| && TeamName(regs[k]) == t {
      var k :| 0 <= k < |regs| && TeamName(regs[k]) == t;
      TeamsComplete(regs, t, k);
    }
  }

  lemma {:induction false} TeamsSound(regs: seq<Record>, t: string)
    requires t in Teams(regs)
    ensures CountsAsTeam(t) && exists k :: 0 <= k < |regs| && TeamName(regs[k]) == t
    decreases |regs|
  {
    var n := |regs| - 1;
    var init := regs[..n];
    if t in Teams(init) {
      TeamsSound(init, t);
      var k :| 0 <= k < |init| && TeamName(init[k]) == t;
      assert regs[k] == init[k];
    } else {
      assert TeamName(regs[n]) == t;
    }
  }

  lemma {:induction false} TeamsComplete(regs: seq<Record>, t: string, k: nat)
    requires k < |regs| && TeamName(regs[k]) == t
    ensures CountsAsTeam(t) ==> t in Teams(regs)
    decreases |regs|
  {
    var n := |regs| - 1;
    var init := regs[..n];
    if k < n {
      assert init[k] == regs[k];
      TeamsComplete(init, t, k);
    }
  }

  /** There are never more teams than registrations. */
  lemma {:induction false} TeamsBound(regs: seq<Record>)
    ensures |Teams(regs)| <= |regs|
    decreases |regs|
  {
    if regs != [] {
      var n := |regs| - 1;
      TeamsBound(regs[..n]);
      var t := TeamName(regs[n]);
      var before := Teams(regs[..n]);
      if CountsAsTeam(t) {
        if t in before {
          assert before + {t} == before;
        } else {
          assert |before + {t}| == |before| + 1;
        }
      } else {
        assert before + {} == before;
      }
    }
  }

  /** A count adds up over consecutive runs of registrations. */
  lemma {:induction false} CountWhereAppend(a: seq<Record>, b: seq<Record>, test: Record -> bool)
    ensures CountWhere(a + b, test) == CountWhere(a, test) + CountWhere(b, test)
    decreases |b|
  {
    if b == [] {
      assert a + b == a;
    } else {
      var n := |b| - 1;
      var ab := a + b;
      assert ab[..|ab| - 1] == a + b[..n];
      assert ab[|ab| - 1] == b[n];
      CountWhereAppend(a, b[..n], test);
    }
  }

  /** The developer count adds up over consecutive runs of registrations. */
  lemma DevelopersAppend(a: seq<Record>, b: seq<Record>)
    ensures Developers(a + b) == Developers(a) + Developers(b)
  {
    CountWhereAppend(a, b, reg => IsDeveloper(Role(reg)));
  }

  /** The designer count adds up likewise. */
  lemma DesignersAppend(a: seq<Record>, b: seq<Record>)
    ensures Designers(a + b) == Designers(a) + Designers(b)
  {
    CountWhereAppend(a, b, reg => IsDesigner(Role(reg)));
  }

  /** A registration is counted under at most one role, so the two counts never exceed the participants. */
  lemma {:induction false} RoleCountsBound(regs: seq<Record>)
    ensures Developers(regs) + Designers(regs) <= |regs|
    decreases |regs|
  {
    if regs != [] {
      RoleCountsBound(regs[..|regs| - 1]);
    }
  }

  /**
   * A role that mentions both words, such as "Developer/Designer", is counted as a developer
   * only: the designer test is an `elif`.
   */
  lemma DeveloperDesignerCountsOnce(reg: Record)
    requires Contains(Lower(Role(reg)), "developer") && Contains(Lower(Role(reg)), "designer")
    ensures Developers([reg]) == 1 && Designers([reg]) == 0
  {
    CountWhereSingle(reg, r => IsDeveloper(Role(r)));
    CountWhereSingle(reg, r => IsDesigner(Role(r)));
  }

  /** A registration without a role, or with the "N/A" default, is counted under neither role. */
  lemma MissingRoleCountsAsNeither(reg: Record)
    requires Role(reg) == "" || Role(reg) == NOT_AVAILABLE
    ensures Developers([reg]) == 0 && Designers([reg]) == 0
  {
    ShortTextLacksWord(Lower(Role(reg)), "developer");
    ShortTextLacksWord(Lower(Role(reg)), "designer");
    CountWhereSingle(reg, r => IsDeveloper(Role(r)));
    CountWhereSingle(reg, r => IsDesigner(Role(r)));
  }

  lemma ShortTextLacksWord(s: string, w: string)
    requires |s| < |w|
    ensures !Contains(s, w)
  {
  }

  /** One registration counts once or not at all. */
  lemma CountWhereSingle(reg: Record, test: Record -> bool)
    ensures CountWhere([reg], test) == if test(reg) then 1 else 0
  {
    assert [reg][..0] == [];
  }

  /** The count over one more registration. */
  lemma CountWhereSnoc(regs: seq<Record>, i: nat, test: Record -> bool)
    requires i < |regs|
    ensures CountWhere(regs[..i + 1], test) == CountWhere(regs[..i], test) + (if test(regs[i]) then 1 else 0)
  {
    assert regs[..i + 1][..i] == regs[..i];
  }

  lemma DevelopersSnoc(regs: seq<Record>, i: nat)
    requires i < |regs|
    ensures Developers(regs[..i + 1]) == Developers(regs[..i]) + (if IsDeveloper(Role(regs[i])) then 1 else 0)
  {
    CountWhereSnoc(regs, i, reg => IsDeveloper(Role(reg)));
  }

  lemma DesignersSnoc(regs: seq<Record>, i: nat)
    requires i < |regs|
    ensures Designers(regs[..i + 1]) == Designers(regs[..i]) + (if IsDesigner(Role(regs[i])) then 1 else 0)
  {
    CountWhereSnoc(regs, i, reg => IsDesigner(Role(reg)));
  }

  /** The participants rows keep the order of the registrations. */
  lemma {:induction false} ParticipantRowsAppend(a: seq<Record>, b: seq<Record>)
    ensures ParticipantRows(a + b) == ParticipantRows(a) + ParticipantRows(b)
    decreases |b|
  {
    if b == [] {
      assert a + b == a;
    } else {
      var n := |b| - 1;
      var ab := a + b;
      assert ab[..|ab| - 1] == a + b[..n];
      assert ab[|ab| - 1] == b[n];
      calc {
        ParticipantRows(ab);
        ParticipantRows(a + b[..n]) + ParticipantRow(b[n]);
        { ParticipantRowsAppend(a, b[..n]); }
        (ParticipantRows(a) + ParticipantRows(b[..n])) + ParticipantRow(b[n]);
        { AppendAssoc(ParticipantRows(a), ParticipantRows(b[..n]), ParticipantRow(b[n])); }
        ParticipantRows(a) + (ParticipantRows(b[..n]) + ParticipantRow(b[n]));
      }
    }
  }

  /** The projects rows keep the order of the demos. */
  lemma {:induction false} ProjectRowsAppend(a: seq<Record>, b: seq<Record>)
    ensures ProjectRows(a + b) == ProjectRows(a) + ProjectRows(b)
    decreases |b|
  {
    if b == [] {
      assert a + b == a;
    } else {
      var n := |b| - 1;
      var ab := a + b;
      assert ab[..|ab| - 1] == a + b[..n];
      assert ab[|ab| - 1] == b[n];
      calc {
        ProjectRows(ab);
        ProjectRows(a + b[..n]) + ProjectRow(b[n]);
        { ProjectRowsAppend(a, b[..n]); }
        (ProjectRows(a) + ProjectRows(b[..n])) + ProjectRow(b[n]);
        { AppendAssoc(ProjectRows(a), ProjectRows(b[..n]), ProjectRow(b[n])); }
        ProjectRows(a) + (ProjectRows(b[..n]) + ProjectRow(b[n]));
      }
    }
  }

  /** A registration whose columns hold no newline makes exactly one line of the table. */
  predicate OneLineParticipant(reg: Record) {
    '\n' !in Username(reg) && '\n' !in Contact(reg) && '\n' !in Role(reg) && '\n' !in TeamName(reg)
  }

  lemma ParticipantRowIsOneLine(reg: Record)
    requires OneLineParticipant(reg)
    ensures Count(ParticipantRow(reg), '\n') == 1
  {
    var u, c, ro, t := Username(reg), Contact(reg), Role(reg), TeamName(reg);
    CountAbsent(u, '\n');
    CountAbsent(c, '\n');
    CountAbsent(ro, '\n');
    CountAbsent(t, '\n');
    CountAbsent("| ", '\n');
    CountAbsent(" | ", '\n');
    assert Count(" |\n", '\n') == 1;
    CountConcat("| ", u, '\n');
    CountConcat("| " + u, " | ", '\n');
    CountConcat("| " + u + " | ", c, '\n');
    CountConcat("| " + u + " | " + c, " | ", '\n');
    CountConcat("| " + u + " | " + c + " | ", ro, '\n');
    CountConcat("| " + u + " | " + c + " | " + ro, " | ", '\n');
    CountConcat("| " + u + " | " + c + " | " + ro + " | ", t, '\n');
    CountConcat("| " + u + " | " + c + " | " + ro + " | " + t, " |\n", '\n');
  }

  /** With newline-free columns the participants rows are one line per registration. */
  lemma {:induction false} ParticipantRowsLines(regs: seq<Record>)
    requires forall k :: 0 <= k < |regs| ==> OneLineParticipant(regs[k])
    ensures Count(ParticipantRows(regs), '\n') == |regs|
    decreases |regs|
  {
    if regs != [] {
      var n := |regs| - 1;
      ParticipantRowsLines(regs[..n]);
      ParticipantRowIsOneLine(regs[n]);
      CountConcat(ParticipantRows(regs[..n]), ParticipantRow(regs[n]), '\n');
    }
  }
}
