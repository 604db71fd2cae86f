/**
 * `parse_file`: one registration or demo markdown file becomes a record.
 *
 * A text that contains `username:` is a registration, otherwise one that contains
 * `project_name:` is a demo, otherwise it is of no known kind. The script's dictionaries
 * become the two constructors of `Record`; `.get(key, default)` on a dictionary of the
 * other kind gives the default, which the accessor functions below return.
 */
module Records {
  import opened Wrappers
  import opened Text
  import opened Fields

  const USERNAME_MARKER := "username:"
  const PROJECT_NAME_MARKER := "project_name:"

  datatype Record =
    | Registration(username: string, contact: string, walletAddress: string, role: string,
                   teamName: string, idea: string, supportNeeded: string, notes: string,
                   filePath: string)
    | Demo(projectName: string, description: string, projectLink: string,
           teamMembers: seq<string>, presentationLink: string, notes: string,
           filePath: string)

  /** Every text field of a record was read out of a `"..."` group. */
  predicate FieldsQuoteFree(r: Record) {
    match r
    case Registration(u, c, w, ro, t, i, su, n, _) =>
      QuoteFree(u) && QuoteFree(c) && QuoteFree(w) && QuoteFree(ro) &&
      QuoteFree(t) && QuoteFree(i) && QuoteFree(su) && QuoteFree(n)
    case Demo(p, d, l, m, pl, n, _) =>
      QuoteFree(p) && QuoteFree(d) && QuoteFree(l) && QuoteFree(pl) && QuoteFree(n) &&
      forall k :: 0 <= k < |m| ==> QuoteFree(m[k])
  }

  /**
   * `parse_file(path)`, where `contents` is what reading the file gives: `None` when
   * opening or decoding it raises, which the script reports and turns into `None`.
   */
  function ParseFile(path: string, contents: Option<string>): (r: Option<Record>)
    ensures contents.None? ==> r.None?
    ensures contents.Some? ==>
              (r.Some? && r.value.Registration? <==> Contains(contents.value, USERNAME_MARKER))
    ensures contents.Some? ==>
              (r.Some? && r.value.Demo? <==>
                 !Contains(contents.value, USERNAME_MARKER) && Contains(contents.value, PROJECT_NAME_MARKER))
    ensures r.Some? ==> r.value.filePath == path && FieldsQuoteFree(r.value)
    ensures r.Some? && r.value.Registration? ==>
              var c := contents.value;
              && r.value.username == ExtractField(c, "username") && r.value.contact == ExtractField(c, "contact")
              && r.value.walletAddress == ExtractField(c, "wallet_address") && r.value.role == ExtractField(c, "role")
              && r.value.teamName == ExtractField(c, "team_name") && r.value.idea == ExtractField(c, "idea")
              && r.value.supportNeeded == ExtractField(c, "support_needed") && r.value.notes == ExtractField(c, "notes")
    ensures r.Some? && r.value.Demo? ==>
              var c := contents.value;
              && r.value.projectName == ExtractField(c, "project_name") && r.value.description == ExtractField(c, "description")
              && r.value.projectLink == ExtractField(c, "project_link") && r.value.teamMembers == ExtractTeamMembers(c)
              && r.value.presentationLink == ExtractField(c, "presentation_link") && r.value.notes == ExtractField(c, "notes")
  {
    match contents
    case None => None
    case Some(c) =>
      if Contains(c, USERNAME_MARKER) then
        Some(Registration(
          ExtractField(c, "username"), ExtractField(c, "contact"),
          ExtractField(c, "wallet_address"), ExtractField(c, "role"),
          ExtractField(c, "team_name"), ExtractField(c, "idea"),
          ExtractField(c, "support_needed"), ExtractField(c, "notes"),
          path))
      else if Contains(c, PROJECT_NAME_MARKER) then
        var members := ExtractTeamMembers(c);
        assert forall k :: 0 <= k < |members| ==> QuoteFree(members[k]) by {
          forall k | 0 <= k < |members| ensures QuoteFree(members[k]) { assert members[k] in members; }
        }
        Some(Demo(
          ExtractField(c, "project_name"), ExtractField(c, "description"),
          ExtractField(c, "project_link"), members,
          ExtractField(c, "presentation_link"), ExtractField(c, "notes"),
          path))
      else None
  }

  // ---------------------------------------------------------------------------
  // reg.get(key, 'N/A') and demo.get(key, ...): the field of the record's own kind, or the
  // default on the other kind. A value read from a parsed record holds no `"`.

  function Username(r: Record): (v: string)
    ensures FieldsQuoteFree(r) ==> QuoteFree(v)
  {
    if r.Registration? then r.username else NOT_AVAILABLE
  }

  function Contact(r: Record): (v: string)
    ensures FieldsQuoteFree(r) ==> QuoteFree(v)
  {
    if r.Registration? then r.contact else NOT_AVAILABLE
  }

  function Role(r: Record): (v: string)
    ensures FieldsQuoteFree(r) ==> QuoteFree(v)
  {
    if r.Registration? then r.role else NOT_AVAILABLE
  }

  function TeamName(r: Record): (v: string)
    ensures FieldsQuoteFree(r) ==> QuoteFree(v)
  {
    if r.Registration? then r.teamName else NOT_AVAILABLE
  }

  function ProjectName(r: Record): (v: string)
    ensures FieldsQuoteFree(r) ==> QuoteFree(v)
  {
    if r.Demo? then r.projectName else NOT_AVAILABLE
  }

  function Description(r: Record): (v: string)
    ensures FieldsQuoteFree(r) ==> QuoteFree(v)
  {
    if r.Demo? then r.description else NOT_AVAILABLE
  }

  function ProjectLink(r: Record): (v: string)
    ensures FieldsQuoteFree(r) ==> QuoteFree(v)
  {
    if r.Demo? then r.projectLink else NOT_AVAILABLE
  }

  function TeamMembers(r: Record): (v: seq<string>)
    ensures FieldsQuoteFree(r) ==> forall k :: 0 <= k < |v| ==> QuoteFree(v[k])
  {
    if r.Demo? then r.teamMembers else []
  }

  // ---------------------------------------------------------------------------
  // Properties

  /** A registration file that opens with `username: "u"` is a registration of `u`. */
  lemma ParseLeadingUsername(path: string, ws: string, u: string, rest: string)
    requires AllSpace(ws) && QuoteFree(u)
    ensures var c := "username" + ":" + ws + "\"" + u + "\"" + rest;
            var r := ParseFile(path, Some(c));
            r.Some? && r.value.Registration? && r.value.username == u && r.value.filePath == path
  {
    var c := "username" + ":" + ws + "\"" + u + "\"" + rest;
    ExtractLeadingField("username", ws, u, rest);
    assert c[..|USERNAME_MARKER|] == USERNAME_MARKER;
    assert OccursAt(c, USERNAME_MARKER, 0);
  }

  /** A demo file that opens with `project_name: "p"` and never says `username:` is a demo of `p`. */
  lemma ParseLeadingProjectName(path: string, ws: string, p: string, rest: string)
    requires AllSpace(ws) && QuoteFree(p)
    requires !Contains("project_name" + ":" + ws + "\"" + p + "\"" + rest, USERNAME_MARKER)
    ensures var c := "project_name" + ":" + ws + "\"" + p + "\"" + rest;
            var r := ParseFile(path, Some(c));
            r.Some? && r.value.Demo? && r.value.projectName == p && r.value.filePath == path
  {
    var c := "project_name" + ":" + ws + "\"" + p + "\"" + rest;
    ExtractLeadingField("project_name", ws, p, rest);
    assert c[..|PROJECT_NAME_MARKER|] == PROJECT_NAME_MARKER;
    assert OccursAt(c, PROJECT_NAME_MARKER, 0);
  }

  /** A text that mentions both markers is read as a registration, whatever else it holds. */
  lemma RegistrationTakesPrecedence(path: string, c: string)
    requires Contains(c, USERNAME_MARKER) && Contains(c, PROJECT_NAME_MARKER)
    ensures ParseFile(path, Some(c)).Some? && ParseFile(path, Some(c)).value.Registration?
  {
  }
}
