/**
 * `update_hackathon`: scan both directories, parse every file, keep the registrations
 * found in the registration directory and the demos found in the demos directory, and
 * write the README from them.
 *
 * The file system is a parameter: each directory's `*.md` listing (`None` when the
 * directory does not exist) and a map from path to contents; a listed path the map does
 * not hold is a file that cannot be read.
 */
module Pipeline {
  import opened Wrappers
  import opened Records
  import opened Scanner
  import opened Readme

  datatype Kind = RegistrationKind | DemoKind

  /** `data['type'] == 'registration'` or `== 'demo'`. */
  predicate OfKind(r: Record, kind: Kind) {
    match kind
    case RegistrationKind => r.Registration?
    case DemoKind => r.Demo?
  }

  /** Opening and reading a file: its contents, or `None` when that raises. */
  function ReadFile(files: map<string, string>, path: string): Option<string>
  {
    if path in files then Some(files[path]) else None
  }

  /** The record one file contributes: the parsed record when it is of the kind wanted. */
  function Kept(path: string, files: map<string, string>, kind: Kind): (r: Option<Record>)
    ensures r.Some? ==> OfKind(r.value, kind) && r.value.filePath == path
    ensures r.Some? <==> ParseFile(path, ReadFile(files, path)).Some? &&
                         OfKind(ParseFile(path, ReadFile(files, path)).value, kind)
  {
    var data := ParseFile(path, ReadFile(files, path));
    if data.Some? && OfKind(data.value, kind) then data else None
  }

  /** The records `keep` yields for `paths`, in the order of the paths. */
  function Filtered(paths: seq<string>, keep: string -> Option<Record>): (r: seq<Record>)
    ensures |r| <= |paths|
    decreases |paths|
  {
    if paths == [] then []
    else
      var init := Filtered(paths[..|paths| - 1], keep);
      match keep(paths[|paths| - 1])
      case Some(rec) => init + [rec]
      case None => init
  }

  /** The records the loop over `paths` collects, in the order of the paths. */
  function Collect(paths: seq<string>, files: map<string, string>, kind: Kind): (r: seq<Record>)
    ensures |r| <= |paths|
    ensures forall rec :: rec in r ==> OfKind(rec, kind) && rec.filePath in paths
  {
    var keep := path => Kept(path, files, kind);
    var r := Filtered(paths, keep);
    assert forall rec :: rec in r ==> OfKind(rec, kind) && rec.filePath in paths by {
      forall rec | rec in r ensures OfKind(rec, kind) && rec.filePath in paths {
        FilteredSound(paths, keep, rec);
      }
    }
    r
  }

  /** One of the two loops of `update_hackathon`. */
  method CollectRecords(paths: seq<string>, files: map<string, string>, kind: Kind) returns (records: seq<Record>)
    ensures records == Collect(paths, files, kind)
  {
    records := [];
    for i := 0 to |paths|
      invariant records == Collect(paths[..i], files, kind)
    {
      FilteredSnoc(paths, i, path => Kept(path, files, kind));
      var data := ParseFile(paths[i], ReadFile(files, paths[i]));
      if data.Some? && OfKind(data.value, kind) {
        records := records + [data.value];
      }
    }
    assert paths[..|paths|] == paths;
  }

  /** The registrations and demos the script tabulates. */
  function Registrations(registrationListing: Option<seq<string>>, files: map<string, string>): seq<Record>
  {
    Collect(ScanDirectory(registrationListing), files, RegistrationKind)
  }

  function Demos(demoListing: Option<seq<string>>, files: map<string, string>): seq<Record>
  {
    Collect(ScanDirectory(demoListing), files, DemoKind)
  }

  /**
   * `update_hackathon()`: the text written to the README. With `asWritten` the previous
   * sections are read with the script's own pattern; without it, with the corrected one.
   */
  method UpdateHackathon(registrationListing: Option<seq<string>>, demoListing: Option<seq<string>>,
                         files: map<string, string>, previous: Option<string>, timestamp: string,
                         asWritten: bool)
    returns (written: string)
    ensures asWritten ==>
              written == ReadmeTextAsWritten(Registrations(registrationListing, files), Demos(demoListing, files), previous, timestamp)
    ensures !asWritten ==>
              written == ReadmeText(Registrations(registrationListing, files), Demos(demoListing, files), previous, timestamp)
  {
    var registrationFiles := ScanDirectory(registrationListing);
    var registrations := CollectRecords(registrationFiles, files, RegistrationKind);
    var demoFiles := ScanDirectory(demoListing);
    var demos := CollectRecords(demoFiles, files, DemoKind);
    var info;
    written, info := GenerateHackathonReadme(registrations, demos, previous, timestamp, asWritten);
  }

  // ---------------------------------------------------------------------------
  // Properties

  /** Every record `keep` contributes is the one some path yields. */
  lemma {:induction false} FilteredSound(paths: seq<string>, keep: string -> Option<Record>, rec: Record)
    requires rec in Filtered(paths, keep)
    ensures exists i :: 0 <= i < |paths| && keep(paths[i]) == Some(rec)
    decreases |paths|
  {
    var n := |paths| - 1;
    var init := paths[..n];
    if rec in Filtered(init, keep) {
      FilteredSound(init, keep, rec);
      var i :| 0 <= i < |init| && keep(init[i]) == Some(rec);
      assert paths[i] == init[i];
    } else {
      assert keep(paths[n]) == Some(rec);
    }
  }

  /** Every record some path yields is in the result. */
  lemma {:induction false} FilteredComplete(paths: seq<string>, keep: string -> Option<Record>, rec: Record, i: nat)
    requires i < |paths| && keep(paths[i]) == Some(rec)
    ensures rec in Filtered(paths, keep)
    decreases |paths|
  {
    var n := |paths| - 1;
    var init := paths[..n];
    if i < n {
      assert init[i] == paths[i];
      FilteredComplete(init, keep, rec, i);
    }
  }

  /** The first `i + 1` paths give those of the first `i` and then what path `i` yields. */
  lemma FilteredSnoc(paths: seq<string>, i: nat, keep: string -> Option<Record>)
    requires i < |paths|
    ensures Filtered(paths[..i + 1], keep) ==
            Filtered(paths[..i], keep) + (if keep(paths[i]).Some? then [keep(paths[i]).value] else [])
  {
    assert paths[..i + 1][..i] == paths[..i];
  }

  /** The order of the paths is kept: filtering distributes over concatenation. */
  lemma {:induction false} FilteredAppend(a: seq<string>, b: seq<string>, keep: string -> Option<Record>)
    ensures Filtered(a + b, keep) == Filtered(a, keep) + Filtered(b, keep)
    decreases |b|
  {
    if b == [] {
      assert a + b == a;
    } else {
      var n := |b| - 1;
      assert (a + b)[..|a + b| - 1] == a + b[..n];
      assert (a + b)[|a + b| - 1] == b[n];
      FilteredAppend(a, b[..n], keep);
    }
  }

  /** Every collected record is the one some path yields. */
  lemma CollectSound(paths: seq<string>, files: map<string, string>, kind: Kind, rec: Record)
    requires rec in Collect(paths, files, kind)
    ensures exists i :: 0 <= i < |paths| && Kept(paths[i], files, kind) == Some(rec)
  {
    var keep := path => Kept(path, files, kind);
    FilteredSound(paths, keep, rec);
    var i :| 0 <= i < |paths| && keep(paths[i]) == Some(rec);
  }

  /** Every record some path yields is collected. */
  lemma CollectComplete(paths: seq<string>, files: map<string, string>, kind: Kind, rec: Record, i: nat)
    requires i < |paths| && Kept(paths[i], files, kind) == Some(rec)
    ensures rec in Collect(paths, files, kind)
  {
    FilteredComplete(paths, path => Kept(path, files, kind), rec, i);
  }

  /** Collecting keeps the order of the paths: it distributes over concatenation. */
  lemma CollectAppend(a: seq<string>, b: seq<string>, files: map<string, string>, kind: Kind)
    ensures Collect(a + b, files, kind) == Collect(a, files, kind) + Collect(b, files, kind)
  {
    FilteredAppend(a, b, path => Kept(path, files, kind));
  }

  /** A missing directory gives no records, and tables that hold only their headers. */
  lemma MissingDirectories(files: map<string, string>)
    ensures Registrations(None, files) == [] && Demos(None, files) == []
    ensures ParticipantsTable(Registrations(None, files)) == PARTICIPANTS_HEADER
    ensures ProjectsTable(Demos(None, files)) == PROJECTS_HEADER
  {
    assert PARTICIPANTS_HEADER + "" == PARTICIPANTS_HEADER;
    assert PROJECTS_HEADER + "" == PROJECTS_HEADER;
  }

  /** A file that cannot be read contributes nothing. */
  lemma UnreadableFileSkipped(path: string, files: map<string, string>, kind: Kind)
    requires path !in files
    ensures Collect([path], files, kind) == []
  {
    assert [path][..0] == [];
  }

  /** A template is never parsed, whatever the file holds. */
  lemma TemplatesNotCollected(listing: seq<string>, files: map<string, string>, kind: Kind, rec: Record)
    requires rec in Collect(ScanDirectory(Some(listing)), files, kind)
    ensures rec.filePath in listing && !Text.EndsWith(rec.filePath, TEMPLATE_SUFFIX)
  {
  }
}
