/**
 * `scan_registration_files` and `scan_demo_files`: the markdown files of one directory,
 * without its `template.md`. The directory listing (the `*.md` files `glob.glob` finds there) is a
 * parameter, `None` when the directory does not exist.
 */
module Scanner {
  import opened Wrappers
  import opened Text

  const TEMPLATE_SUFFIX := "template.md"

  /** `[f for f in files if not f.endswith('template.md')]`. */
  function FilterTemplates(files: seq<string>): (r: seq<string>)
    ensures |r| <= |files|
    ensures forall f :: f in r <==> f in files && !EndsWith(f, TEMPLATE_SUFFIX)
    decreases |files|
  {
    if files == [] then []
    else
      var rest := FilterTemplates(files[1..]);
      if EndsWith(files[0], TEMPLATE_SUFFIX) then rest else [files[0]] + rest
  }

  /** The scan of one directory: nothing when it is missing, else its listing without templates. */
  function ScanDirectory(listing: Option<seq<string>>): (r: seq<string>)
    ensures listing.None? ==> r == []
    ensures listing.Some? ==> |r| <= |listing.value|
    ensures forall f :: f in r <==> listing.Some? && f in listing.value && !EndsWith(f, TEMPLATE_SUFFIX)
  {
    match listing
    case None => []
    case Some(files) => FilterTemplates(files)
  }

  /** Filtering keeps the listing's order: it distributes over concatenation. */
  lemma {:induction false} FilterTemplatesAppend(a: seq<string>, b: seq<string>)
    ensures FilterTemplates(a + b) == FilterTemplates(a) + FilterTemplates(b)
    decreases |a|
  {
    if a == [] {
      assert a + b == b;
    } else {
      assert (a + b)[0] == a[0];
      assert (a + b)[1..] == a[1..] + b;
      FilterTemplatesAppend(a[1..], b);
    }
  }

  /** Each file occurs in the result as often as it occurs in the listing, or not at all if it is a template. */
  lemma {:induction false} FilterTemplatesCounts(files: seq<string>, f: string)
    ensures multiset(FilterTemplates(files))[f] ==
              if EndsWith(f, TEMPLATE_SUFFIX) then 0 else multiset(files)[f]
    decreases |files|
  {
    if files != [] {
      FilterTemplatesCounts(files[1..], f);
      assert files == [files[0]] + files[1..];
    }
  }

  /** Filtering twice is filtering once. */
  lemma {:induction false} FilterTemplatesIdempotent(files: seq<string>)
    ensures FilterTemplates(FilterTemplates(files)) == FilterTemplates(files)
    decreases |files|
  {
    if files != [] {
      FilterTemplatesIdempotent(files[1..]);
      var rest := FilterTemplates(files[1..]);
      if !EndsWith(files[0], TEMPLATE_SUFFIX) {
        assert ([files[0]] + rest)[1..] == rest;
      }
    }
  }
}
