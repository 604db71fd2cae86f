# Hackathon README generator, modelled in Dafny

`scripts/update_hackathon.py` builds one hackathon's `README.md` from the markdown files that
participants add to two directories, `registration/` and `demos/`. In both directories a file
whose name ends in `template.md` is dropped (so `my-template.md` is dropped too). A kept file
under `registration/` that mentions `username:` is a registration. A kept file under `demos/`
that mentions `project_name:` (and not `username:`) is a demo. Each field is read with a regular
expression, `name:` followed by optional whitespace and a double-quoted value, and defaults to "N/A".

The README the script writes has these parts:

- a title;
- the "Event Details" and "Resources" sections, carried over from the previous README (or
  defaults when there is none);
- a participants table;
- a projects table;
- four statistics: participants, distinct teams, developers and designers;
- a time stamp.

The model is split into modules that follow the script:

| module | file | models |
|---|---|---|
| `Text` | `text.dfy` | the string operations the script relies on: Python's whitespace class, `strip`, `"sep".join`, ASCII `lower`, `str(n)`, `in` |
| `Fields` | `fields.dfy` | `extract_field` and `extract_team_members`, as hand-written scanners that follow the regular expressions character by character; `re.findall(r'"([^"]*)"')` as a two-state quote scanner |
| `Records` | `records.dfy` | `parse_file` and the `.get(key, default)` reads of its dictionaries |
| `Scanner` | `scanner.dfy` | `scan_registration_files` and `scan_demo_files`: the listing without `template.md` files |
| `Sections` | `sections.dfy` | the two `re.search(r'## ...\s+(.+?)(?=##\|\Z)', ..., re.DOTALL)` reads of the previous README, as written and corrected, and the defaults |
| `Readme` | `readme.dfy` | `generate_hackathon_readme`: the table-building loops as methods with loop invariants, the statistics, the 28-item `content` list and its `"\n".join` |
| `Regeneration` | `regeneration.dfy` | what a second run reads out of the README the first run wrote |
| `Pipeline` | `pipeline.dfy` | `update_hackathon`: the two loops that parse and keep records of the right kind |

Some inputs are parameters rather than effects:

- The file system is a map from path to contents. A listed path the map does not hold is a file
  whose reading raises.
- Each `glob.glob` listing is an `Option<seq<string>>`. `None` means the directory does not exist.
- The previous README is an `Option<string>`. `None` means reading it raises.
- The formatted clock reading is a string parameter.

Methods and functions return the text the script writes to `README.md`. Nothing else is
returned in place of the write.

Two points of the code deserve a note:

- Role counting uses `if ... elif`, so a role that mentions both "developer" and "designer"
  (for example "Developer/Designer") counts as a developer only, never as a designer.
  `Readme.DeveloperDesignerCountsOnce` states this.
- The section pattern `(.+?)` needs at least one character after the heading's whitespace, so
  an empty section reads as the next heading and what follows it; see Findings. The sections are
  therefore modelled twice. The script's own pattern gives `Sections.SectionAsWritten`,
  `Sections.PreservedSectionsAsWritten` and `Readme.ReadmeTextAsWritten`. The corrected pattern
  `(.*?)` gives `Sections.Section`, `Sections.PreservedSections` and `Readme.ReadmeText`, and the
  round trip a re-run needs is proved for it. `Readme.GenerateHackathonReadme` and
  `Pipeline.UpdateHackathon` take a flag `asWritten`. With it set, the text they write is the
  script's as it stands (`ReadmeTextAsWritten`). With it cleared, the text is the corrected one
  (`ReadmeText`).

## Model

| member | source | states |
|---|---|---|
| Text.IsSpace | scripts/update_hackathon.py:8 | Python's whitespace class (`str.isspace`), which `\s` in the field, list and section patterns and `strip()` use |
| Text.Strip | scripts/update_hackathon.py:105 | Python's `strip()`: whitespace cut from both ends |
| Text.Join | scripts/update_hackathon.py:195 | Python's `"sep".join` |
| Text.EndsWith | scripts/update_hackathon.py:73 | Python's `str.endswith`: the text's last characters are the suffix |
| Text.EndsWithShape | scripts/update_hackathon.py:73 | a text ends with a suffix exactly when it is some text followed by that suffix |
| Text.IndexOfFrom | scripts/update_hackathon.py:8 | the `[^"]*` run: the first index at or after `k` that holds the character, or the end, with no such character before it |
| Text.SkipSpace | scripts/update_hackathon.py:8 | the greedy `\s*` run: the first index at or after `k` that is not whitespace, or the end, with only whitespace before it |
| Text.Contains | scripts/update_hackathon.py:32 | Python's `in` on strings: the text occurs at some index |
| Text.StripShape | scripts/update_hackathon.py:105 | `strip()` leaves no whitespace at either end, and the stripped text is a slice of the input with only whitespace cut off at each end |
| Text.StripIdempotent | scripts/update_hackathon.py:105 | stripping a stripped text changes nothing |
| Text.StripTrailingSpace | scripts/update_hackathon.py:105 | a stripped text followed by whitespace strips back to itself |
| Text.JoinAppend | scripts/update_hackathon.py:195 | `"sep".join` of two non-empty lists is their joins with one separator between them |
| Text.JoinStartsWith | scripts/update_hackathon.py:195 | a joined text starts with its first item |
| Text.JoinFree | scripts/update_hackathon.py:195 | a character in no item and not in the separator is not in the join |
| Text.Lower | scripts/update_hackathon.py:138 | `lower()` keeps the length and lowers each character |
| Text.NatToString | scripts/update_hackathon.py:185-188 | `str(n)` is a non-empty run of decimal digits that starts with `0` only for zero |
| Text.DecimalValueOfNatToString | scripts/update_hackathon.py:185-188 | the digits `str(n)` writes read back as `n` |
| Fields.FieldAt | scripts/update_hackathon.py:8 | the pattern `name:\s*"([^"]*)"` tried at one index; a match yields a group without `"` |
| Fields.FieldAtSound | scripts/update_hackathon.py:8 | a match at `i` is `name:`, a whitespace run, then the quoted value |
| Fields.FieldAtComplete | scripts/update_hackathon.py:8 | every such occurrence is a match, with that value |
| Fields.SearchField | scripts/update_hackathon.py:9 | `re.search` finds the leftmost match, and there is none before it |
| Fields.ExtractField | scripts/update_hackathon.py:6-12 | the value read never holds `"` |
| Fields.SearchFieldLeftmost | scripts/update_hackathon.py:9 | the search stops exactly at the first index where the pattern matches |
| Fields.ExtractFieldLeftmost | scripts/update_hackathon.py:9-11 | the value is the group of the leftmost match |
| Fields.ExtractFieldNoMatch | scripts/update_hackathon.py:9-12 | the value is "N/A" when the pattern matches nowhere |
| Fields.ExtractLeadingField | scripts/update_hackathon.py:6-12 | a text that starts with `name: "v"` yields `v` |
| Fields.ExtractFieldInsideLongerName | scripts/update_hackathon.py:8 | the name is not anchored: a text that starts with a longer name ending in `name` (`release_notes:` for `notes`) yields that field's value |
| Fields.FieldNeedsMarker | scripts/update_hackathon.py:8-12 | without `name:` in the text the field is "N/A" |
| Fields.ListEnd | scripts/update_hackathon.py:16 | `(.*?)\]` without DOTALL stops at the first `]` or newline |
| Fields.ListAt | scripts/update_hackathon.py:16 | the pattern `team_members:\s*\[(.*?)\]` tried at one index; its group has no `]` and no newline |
| Fields.ListAtSound | scripts/update_hackathon.py:16 | a match at `i` is the key, whitespace, `[`, the group and `]` |
| Fields.ListAtComplete | scripts/update_hackathon.py:16 | every such occurrence is a match with that group |
| Fields.SearchList | scripts/update_hackathon.py:17 | `re.search` finds the leftmost match of the list pattern |
| Fields.Unquoted | scripts/update_hackathon.py:21 | `re.findall(r'"([^"]*)"')` outside a match: skip to the next `"` |
| Fields.Quoted | scripts/update_hackathon.py:21 | `re.findall` inside a match: collect up to the closing `"`, then go on after it |
| Fields.FindAllQuoted | scripts/update_hackathon.py:21 | `re.findall(r'"([^"]*)"', members_str)`: the scanner started outside a match |
| Fields.CountConcat | scripts/update_hackathon.py:21 | quote counts add up over concatenation |
| Fields.FindAllQuotedShape | scripts/update_hackathon.py:21 | `re.findall(r'"([^"]*)"')` yields one item per pair of quotes, none holding `"` |
| Fields.UnquotedSkip | scripts/update_hackathon.py:21 | text without quotes before the next `"` yields nothing |
| Fields.QuotedClose | scripts/update_hackathon.py:21 | text up to a closing `"` is one item |
| Fields.FindAllQuotedOfList | scripts/update_hackathon.py:21 | a list written as `"a", "b", ...` gives back exactly its items |
| Fields.ExtractTeamMembers | scripts/update_hackathon.py:14-23 | no name read holds `"`, `]` or a newline |
| Fields.SearchListLeftmost | scripts/update_hackathon.py:17 | the search stops exactly at the first index where the list pattern matches |
| Fields.ExtractTeamMembersLeftmost | scripts/update_hackathon.py:17-22 | the names are the quoted strings of the leftmost list |
| Fields.ExtractTeamMembersNoMatch | scripts/update_hackathon.py:17-23 | there are no names when the list pattern matches nowhere |
| Fields.ExtractLeadingTeamMembers | scripts/update_hackathon.py:14-23 | `team_members: ["a", "b"]` yields `["a", "b"]` |
| Records.ParseFile | scripts/update_hackathon.py:25-62 | `None` when reading fails; a registration exactly when the text has `username:`; a demo exactly when it has `project_name:` but not `username:`; each field is what `extract_field` (or `extract_team_members`) reads from the text; the record keeps the path, and its fields hold no `"` |
| Records.Username | scripts/update_hackathon.py:126 | `reg.get('username', 'N/A')` on a parsed record holds no `"`: the default "N/A" does not, and a value read by `extract_field` cannot |
| Records.Contact | scripts/update_hackathon.py:127 | `reg.get('contact', 'N/A')` on a parsed record holds no `"`: the default "N/A" does not, and a value read by `extract_field` cannot |
| Records.Role | scripts/update_hackathon.py:128 | `reg.get('role', 'N/A')` on a parsed record holds no `"`: the default "N/A" does not, and a value read by `extract_field` cannot |
| Records.TeamName | scripts/update_hackathon.py:129 | `reg.get('team_name', 'N/A')` on a parsed record holds no `"`: the default "N/A" does not, and a value read by `extract_field` cannot |
| Records.ProjectName | scripts/update_hackathon.py:148 | `demo.get('project_name', 'N/A')` on a parsed record holds no `"`: the default "N/A" does not, and a value read by `extract_field` cannot |
| Records.Description | scripts/update_hackathon.py:149 | `demo.get('description', 'N/A')` on a parsed record holds no `"`: the default "N/A" does not, and a value read by `extract_field` cannot |
| Records.ProjectLink | scripts/update_hackathon.py:150 | `demo.get('project_link', 'N/A')` on a parsed record holds no `"`: the default "N/A" does not, and a value read by `extract_field` cannot |
| Records.TeamMembers | scripts/update_hackathon.py:153 | `demo.get('team_members', [])` on a parsed record holds no name with `"` |
| Records.ParseLeadingUsername | scripts/update_hackathon.py:32-44 | a file that opens with `username: "u"` is a registration of `u` |
| Records.ParseLeadingProjectName | scripts/update_hackathon.py:46-56 | a file that opens with `project_name: "p"` and has no `username:` is a demo of `p` |
| Records.RegistrationTakesPrecedence | scripts/update_hackathon.py:32-46 | a file with both markers is a registration |
| Scanner.FilterTemplates | scripts/update_hackathon.py:73 | a file is kept exactly when it is listed and does not end in `template.md`; never more files than listed |
| Scanner.ScanDirectory | scripts/update_hackathon.py:64-84 | a missing directory gives `[]`; otherwise the listing's files that are not templates |
| Scanner.FilterTemplatesAppend | scripts/update_hackathon.py:73 | the filter keeps the listing's order: it distributes over concatenation |
| Scanner.FilterTemplatesCounts | scripts/update_hackathon.py:73 | each non-template occurs as often as in the listing, each template not at all |
| Scanner.FilterTemplatesIdempotent | scripts/update_hackathon.py:73 | filtering twice is filtering once |
| Sections.NextPair | scripts/update_hackathon.py:103 | the lookahead `(?=##\|\Z)`: the first `##` at or after `k`, or the end |
| Sections.GroupAt | scripts/update_hackathon.py:103-108 | the corrected pattern at one index; its group has no `##` |
| Sections.GroupAtAsWritten | scripts/update_hackathon.py:103-108 | the pattern as written at one index; its group is never empty |
| Sections.SearchSection | scripts/update_hackathon.py:103-108 | `re.search` finds the leftmost match, and there is none before it |
| Sections.SectionOf | scripts/update_hackathon.py:103-110 | the stripped group of the leftmost match under either pattern, or "" without a match; the result is stripped |
| Sections.SectionOfLeftmost | scripts/update_hackathon.py:103-110 | the section is the stripped group of the leftmost match |
| Sections.SectionOfAbsent | scripts/update_hackathon.py:95-110 | it stays "" when the pattern matches nowhere |
| Sections.Section | scripts/update_hackathon.py:103-110 | corrected reading `(.*?)`: the section kept is stripped and has no `##` |
| Sections.SectionAsWritten | scripts/update_hackathon.py:103-110 | the section kept, as the script's own pattern reads it, is stripped |
| Sections.PreservedSections | scripts/update_hackathon.py:93-114 | corrected reading `(.*?)`: the defaults when the README cannot be read, else the two sections read from it; both stripped and without `##` |
| Sections.PreservedSectionsAsWritten | scripts/update_hackathon.py:93-114 | the same with the script's own pattern: defaults when unreadable, both parts stripped |
| Sections.DefaultsKeepable | scripts/update_hackathon.py:113-114 | the default sections are stripped and have no `##` |
| Sections.MissingHeadingEmptySection | scripts/update_hackathon.py:103-110 | a README without the heading gives an empty section under either pattern |
| Sections.CaptureSection | scripts/update_hackathon.py:103-110 | corrected reading `(.*?)`: a stripped text without `##`, written as heading, blank line, text, blank line and a next heading, reads back as that text; with the script's own pattern, only when the text is not empty |
| Sections.CaptureEmptySectionAsWritten | scripts/update_hackathon.py:103-105 | with the script's own pattern, an empty section read back starts with the next heading's `##` |
| Readme.ParticipantRow | scripts/update_hackathon.py:131 | one `\| username \| contact \| role \| team \|` row with a newline |
| Readme.ProjectRow | scripts/update_hackathon.py:147-159 | one projects row; the team members joined with ", " |
| Readme.ParticipantRows | scripts/update_hackathon.py:125-131 | the rows the loop appends, one per registration, in order |
| Readme.ParticipantsTable | scripts/update_hackathon.py:117-131 | `participants_table`: the header lines followed by the rows |
| Readme.ProjectRows | scripts/update_hackathon.py:147-159 | the rows the loop appends, one per demo, in order |
| Readme.ProjectsTable | scripts/update_hackathon.py:145-159 | `projects_table`: the header lines followed by the rows |
| Readme.CountsAsTeam | scripts/update_hackathon.py:134 | the test `team_name and team_name != 'N/A'` |
| Readme.Teams | scripts/update_hackathon.py:134-135 | the set of team names that are neither "" nor "N/A" |
| Readme.IsDeveloper | scripts/update_hackathon.py:137-140 | a non-empty role whose lower-cased text contains "developer" |
| Readme.IsDesigner | scripts/update_hackathon.py:137-142 | the `elif` branch: a non-empty role that contains "designer" but not "developer" |
| Readme.CountWhere | scripts/update_hackathon.py:137-142 | how many registrations pass a test, counted front to back as the loop counts |
| Readme.Developers | scripts/update_hackathon.py:137-140 | the final value of `developers`: the registrations whose role passes `IsDeveloper` |
| Readme.Designers | scripts/update_hackathon.py:137-142 | the final value of `designers`: the registrations whose role passes `IsDesigner` |
| Readme.StatisticsOf | scripts/update_hackathon.py:120-142 | the four statistics: `len(registrations)`, `len(teams)`, `developers` and `designers` |
| Readme.TabulateParticipants | scripts/update_hackathon.py:117-142 | the loop builds the header plus one row per registration, and the statistics of the registrations |
| Readme.AddTeam | scripts/update_hackathon.py:134-135 | one step of the loop adds the next registration's team to the set of distinct teams |
| Readme.TallyRole | scripts/update_hackathon.py:137-142 | one step of the loop moves both role counters on to the next registration: `developer` first, `designer` only otherwise |
| Readme.TabulateProjects | scripts/update_hackathon.py:145-159 | the loop builds the header plus one row per demo |
| Readme.GenerateHackathonReadme | scripts/update_hackathon.py:86-203 | with `asWritten`, the text written is `ReadmeTextAsWritten`: sections read by the script's own pattern; without it, `ReadmeText`; the summary holds the name and both counts |
| Readme.DocumentLines | scripts/update_hackathon.py:161-191 | the script's `content` list has 28 items, in the order it lists them (an item may hold newlines) |
| Readme.Document | scripts/update_hackathon.py:194-195 | the text is the 28 items joined with `"\n"` |
| Readme.ReadmeText | scripts/update_hackathon.py:86-195 | corrected reading: the whole text written, with the sections read by `(.*?)` |
| Readme.ReadmeTextAsWritten | scripts/update_hackathon.py:86-195 | the script as written: the whole text written, with the sections read by `(.+?)` |
| Readme.TeamsMembership | scripts/update_hackathon.py:121-135 | a team is counted exactly when some registration names it and the name is neither "" nor "N/A" |
| Readme.TeamsSound | scripts/update_hackathon.py:134-135 | every team counted is named by some registration and is neither "" nor "N/A" |
| Readme.TeamsComplete | scripts/update_hackathon.py:134-135 | every name a registration gives that is neither "" nor "N/A" is counted |
| Readme.TeamsBound | scripts/update_hackathon.py:186 | there are never more teams than registrations |
| Readme.CountWhereAppend | scripts/update_hackathon.py:137-142 | a count of the registrations passing a test adds up over consecutive runs of registrations |
| Readme.DevelopersAppend | scripts/update_hackathon.py:139-140 | the developer count adds up over consecutive runs of registrations |
| Readme.DesignersAppend | scripts/update_hackathon.py:141-142 | the designer count adds up likewise |
| Readme.RoleCountsBound | scripts/update_hackathon.py:137-142 | developers plus designers never exceed the participants |
| Readme.DeveloperDesignerCountsOnce | scripts/update_hackathon.py:139-142 | a role that mentions both words, such as "Developer/Designer", counts as one developer and no designer |
| Readme.MissingRoleCountsAsNeither | scripts/update_hackathon.py:137-142 | an empty role, or the "N/A" default, counts in neither bucket |
| Readme.ParticipantRowsAppend | scripts/update_hackathon.py:125-131 | the rows of consecutive runs of registrations concatenate in order |
| Readme.ProjectRowsAppend | scripts/update_hackathon.py:147-159 | the rows of consecutive runs of demos concatenate in order |
| Readme.ParticipantRowIsOneLine | scripts/update_hackathon.py:131 | a participant row whose fields have no newline is exactly one line |
| Readme.ParticipantRowsLines | scripts/update_hackathon.py:125-131 | with rows whose columns have no newline, the rows hold one newline per registration |
| Regeneration.EventDetailsReadBack | scripts/update_hackathon.py:103-105 | corrected reading `(.*?)`: stripped event details without `##` written into the README are what the next run reads back from it; with the script's own pattern, only when they are not empty |
| Regeneration.ResourcesReadBack | scripts/update_hackathon.py:108-110 | corrected reading `(.*?)`: stripped resources without `##`, written after event details without `##`, are what the next run reads back; with the script's own pattern, only when they are not empty |
| Regeneration.PreservedRoundTrip | scripts/update_hackathon.py:93-195 | corrected reading `(.*?)`: reading both sections out of a written README gives the sections written into it |
| Regeneration.SectionsSurviveRegeneration | scripts/update_hackathon.py:93-195 | corrected reading `(.*?)`: the sections a run keeps are the ones the next run keeps, whatever the records |
| Regeneration.RegenerationIsIdempotent | scripts/update_hackathon.py:86-195 | corrected reading `(.*?)`: running again on the README a run wrote gives what running on the earlier README would give: only the records and the time stamp matter |
| Regeneration.EmptyEventDetailsAsWritten | scripts/update_hackathon.py:103-105 | with the script's own pattern, an empty event details section reads back as text that starts with `##`, where the corrected pattern reads "" |
| Regeneration.NoHeadingsNoSections | scripts/update_hackathon.py:94-110 | a previous README without the headings gives two empty sections under either pattern |
| Regeneration.AsWrittenRegenerationLosesEventDetails | scripts/update_hackathon.py:93-195 | as written, a run after a run on any README without the `## Event Details` heading reads different event details, starting with `##` |
| Regeneration.AsWrittenAgreesOnNonEmptySections | scripts/update_hackathon.py:103-110 | the pattern as written reads non-empty written sections correctly |
| Pipeline.OfKind | scripts/update_hackathon.py:217-225 | `data['type'] == 'registration'` or `== 'demo'`: the record's constructor |
| Pipeline.Kept | scripts/update_hackathon.py:216-226 | a file yields a record exactly when it parses to one of the kind wanted; the record keeps its path |
| Pipeline.Filtered | scripts/update_hackathon.py:215-218 | what a loop that appends each path's record, if any, collects: never more records than paths |
| Pipeline.FilteredSound | scripts/update_hackathon.py:215-218 | every record collected is the one some path yields |
| Pipeline.FilteredComplete | scripts/update_hackathon.py:215-218 | every record some path yields is collected |
| Pipeline.FilteredSnoc | scripts/update_hackathon.py:215-218 | one more path appends its record, if it yields one, after the others |
| Pipeline.FilteredAppend | scripts/update_hackathon.py:215-218 | collecting distributes over concatenation of the paths |
| Pipeline.Collect | scripts/update_hackathon.py:213-226 | at most one record per path, each of the kind wanted and from a listed path |
| Pipeline.CollectRecords | scripts/update_hackathon.py:214-226 | the loop collects exactly `Collect` of the paths |
| Pipeline.UpdateHackathon | scripts/update_hackathon.py:210-229 | the README written is the one for the registrations and demos the two loops keep: `ReadmeTextAsWritten` with `asWritten`, `ReadmeText` without it |
| Pipeline.Registrations | scripts/update_hackathon.py:213-218 | the registrations collected from the registration directory's listing |
| Pipeline.Demos | scripts/update_hackathon.py:221-226 | the demos collected from the demos directory's listing |
| Pipeline.CollectSound | scripts/update_hackathon.py:215-218 | every record collected is the one some listed path yields |
| Pipeline.CollectComplete | scripts/update_hackathon.py:215-218 | every record a listed path yields is collected |
| Pipeline.CollectAppend | scripts/update_hackathon.py:215-218 | the loop keeps the listing's order: it distributes over concatenation |
| Pipeline.MissingDirectories | scripts/update_hackathon.py:64-84 | missing directories give no records, so both tables hold only their header lines |
| Pipeline.UnreadableFileSkipped | scripts/update_hackathon.py:60-62 | a file that cannot be read contributes nothing |
| Pipeline.TemplatesNotCollected | scripts/update_hackathon.py:213-226 | every record collected comes from a listed file that is not a template |

## Left out

- Printing: the progress and error messages the script prints are not modelled.
- Reading and writing files: modelled as the parameters and results described above. The `try`/`except` around them becomes `None`.
- `os.getcwd()`, `os.path.join` and `os.path.exists`: outside the model. A missing directory is a `None` listing.
- `glob.glob`: its listing and that listing's order are a parameter.
- `datetime.now().strftime`: the formatted time stamp is a parameter.
- Text.Lower: implements ASCII case mapping only. Python's `str.lower` also lowers non-ASCII letters, so a role spelled with non-ASCII capitals may be counted differently.
- The `isinstance(role, str)` test and the `str(team_members)` branch: every value `parse_file` produces is a string, or a list for `team_members`, so these branches cannot be reached. The model types the fields accordingly.
- Field names are not escaped in the `extract_field` pattern. All field names the script uses are plain words, so the model treats each name as literal text.
- `update_main_readme` is commented out in the source and is not part of this model.
- The `'type'` key is not a field. The two `Record` constructors stand for it.
- The `'participants'` count in the returned summary is the length of the registrations, as in the script. The summary is returned by `Readme.GenerateHackathonReadme`, and `update_hackathon` discards it.
- The loop of `generate_hackathon_readme` over the registrations is in `Readme.TabulateParticipants`. The loop over the demos is in `Readme.TabulateProjects`.
- The two loops of `update_hackathon` are one method, `Pipeline.CollectRecords`, called once per kind.
- The developer and designer counts are not stated as set comprehensions. They are given by `Readme.CountWhere`, a recursive count over the registrations, and their additivity and bounds are proved instead.
- The body of the loop over the registrations is split across `Readme.AddTeam` and `Readme.TallyRole`, which update the team set and the role counters. Each is proved against the counting functions on the registrations seen so far.
- The `asWritten` flag of the generating methods is not in the script, which always reads the sections with its own pattern. The script as it stands is the call with the flag set. The call with the flag cleared is the corrected script that the Findings row describes.

## Findings

| source | as written | input that shows it | evidently intended | confidence | as-written member | corrected member |
|---|---|---|---|---|---|---|
| scripts/update_hackathon.py:103-108 | `(.+?)` requires at least one captured character after `\s+`. When the section is empty, `\s+` cannot stop short of the next heading, so the lazy group runs on through that heading to the `##` after it, and `strip()` keeps the heading | a previous README that has no `## Event Details` heading: the first run writes an empty event details section, and the second run reads `## Resources` and the resources text as the event details | `(.*?)`: an empty section reads back as empty, so each run keeps the sections of the last | not executed | Regeneration.AsWrittenRegenerationLosesEventDetails | Regeneration.SectionsSurviveRegeneration |
