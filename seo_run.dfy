/** The linter's entry point `main`: lint every `.md` file of the posts
    directory, report the files that have findings, and fail the commit when
    any of them has an error. */
module SeoRun {
  import opened FileNames
  import opened SeoRules
  import opened SeoProperties

  /** A directory entry: its name, and what reading it as a post yields. */
  type Entry = (string, PostFile)

  /** The report of one file that has findings, under the file's name. */
  type Reported = (string, Report)

  /** `[f for f in os.listdir(POSTS_DIR) if f.endswith('.md')]`. */
  function MarkdownFiles(listing: seq<Entry>): (files: seq<Entry>)
    ensures |files| <= |listing|
  {
    if listing == [] then []
    else
      var last := listing[|listing| - 1];
      MarkdownFiles(listing[..|listing| - 1]) + (if IsMarkdown(last.0) then [last] else [])
  }

  /** The files, in order, whose report is not empty, each with its report. */
  function ReportedFiles(files: seq<Entry>): (r: seq<Reported>)
    ensures |r| <= |files|
  {
    if files == [] then []
    else
      var last := files[|files| - 1];
      var report := Lint(last.1);
      ReportedFiles(files[..|files| - 1]) + (if report.errors != [] || report.warnings != [] then [(last.0, report)] else [])
  }

  /** A linted file whose report lists an error. */
  predicate HasErrors(e: Entry) {
    Lint(e.1).errors != []
  }

  /** Some file of `files` has an error. */
  predicate AnyFailing(files: seq<Entry>) {
    files != [] && (HasErrors(files[|files| - 1]) || AnyFailing(files[..|files| - 1]))
  }

  /** A file of the listing that `main` lints and that has an error. */
  predicate FailsCheck(listing: seq<Entry>, e: Entry) {
    e in listing && IsMarkdown(e.0) && HasErrors(e)
  }

  /** The status `main` exits with: 1 when a linted file has an error, 0
      otherwise; warnings never fail the check. */
  function ExitStatus(listing: seq<Entry>): int {
    if exists e | e in listing :: FailsCheck(listing, e) then 1 else 0
  }

  /** Some report lists an error. */
  predicate AnyErrors(reported: seq<Reported>) {
    reported != [] && (reported[|reported| - 1].1.errors != [] || AnyErrors(reported[..|reported| - 1]))
  }

  /** `main`, with the directory listing as input and the process exit
      status and the printed reports as outputs. */
  method RunLinter(listing: seq<Entry>) returns (status: int, reported: seq<Reported>)
    ensures status == ExitStatus(listing)
    ensures reported == ReportedFiles(MarkdownFiles(listing))
  {
    var hasCriticalErrors := false;
    var files := MarkdownFiles(listing);
    reported := [];
    for i := 0 to |files|
      invariant reported == ReportedFiles(files[..i])
      invariant hasCriticalErrors <==> AnyFailing(files[..i])
    {
      reported, hasCriticalErrors := LintEntry(files, i, reported, hasCriticalErrors);
    }
    WholePrefix(files);
    ExitStatusByFiles(listing);
    status := if hasCriticalErrors then 1 else 0;
  }

  /** One pass of `main`'s loop: lint the next file, print its report when
      it has findings, and raise the flag for each of its errors. */
  method LintEntry(files: seq<Entry>, i: nat, reported: seq<Reported>, hasCriticalErrors: bool)
    returns (reported': seq<Reported>, hasCriticalErrors': bool)
    requires i < |files|
    requires reported == ReportedFiles(files[..i])
    requires hasCriticalErrors <==> AnyFailing(files[..i])
    ensures reported' == ReportedFiles(files[..i + 1])
    ensures hasCriticalErrors' <==> AnyFailing(files[..i + 1])
  {
    var name, file := files[i].0, files[i].1;
    var errors, warnings := LintFile(file);
    reported', hasCriticalErrors' := reported, hasCriticalErrors;
    if errors != [] || warnings != [] {
      reported' := reported' + [(name, Report(errors, warnings))];
      for k := 0 to |errors|
        invariant hasCriticalErrors' <==> hasCriticalErrors || 0 < k
      {
        hasCriticalErrors' := true;
      }
    }
    assert hasCriticalErrors' <==> hasCriticalErrors || errors != [];
    PrefixStep(files, i);
  }

  lemma WholePrefix(files: seq<Entry>)
    ensures ReportedFiles(files[..|files|]) == ReportedFiles(files)
    ensures AnyFailing(files[..|files|]) == AnyFailing(files)
  {
    assert files[..|files|] == files;
  }

  /** One more file linted: its report is added when it has findings, and
      its errors count towards the exit status. */
  lemma PrefixStep(files: seq<Entry>, i: nat)
    requires i < |files|
    ensures var report := Lint(files[i].1);
            && ReportedFiles(files[..i + 1])
               == ReportedFiles(files[..i]) + (if report.errors != [] || report.warnings != [] then [(files[i].0, report)] else [])
            && (AnyFailing(files[..i + 1]) <==> report.errors != [] || AnyFailing(files[..i]))
  {
    assert files[..i + 1][..i] == files[..i];
  }

  lemma {:induction false} MarkdownFilesMembers(listing: seq<Entry>)
    ensures forall e :: e in MarkdownFiles(listing) <==> e in listing && IsMarkdown(e.0)
  {
    if listing != [] {
      var init := listing[..|listing| - 1];
      MarkdownFilesMembers(init);
      assert listing == init + [listing[|listing| - 1]];
    }
  }

  /** A file is reported exactly when it is linted and has some finding. */
  lemma {:induction false} ReportedFilesMembers(files: seq<Entry>, name: string, report: Report)
    ensures (name, report) in ReportedFiles(files)
            <==> exists file :: (name, file) in files && report == Lint(file)
                                && (report.errors != [] || report.warnings != [])
    decreases |files|
  {
    if files != [] {
      var init, last := files[..|files| - 1], files[|files| - 1];
      ReportedFilesMembers(init, name, report);
      EntryInPrefix(files, name, report);
    }
  }

  lemma EntryInPrefix(files: seq<Entry>, name: string, report: Report)
    requires files != []
    ensures (exists file :: (name, file) in files && report == Lint(file))
            <==> (exists file :: (name, file) in files[..|files| - 1] && report == Lint(file))
                 || (files[|files| - 1].0 == name && Lint(files[|files| - 1].1) == report)
  {
    var init, last := files[..|files| - 1], files[|files| - 1];
    assert files == init + [last];
    if file :| (name, file) in files && report == Lint(file) {
      if (name, file) != last {
        assert (name, file) in init;
      }
    }
    if last.0 == name && Lint(last.1) == report {
      assert (name, last.1) in files;
    }
  }

  lemma AnyErrorsAppend(reported: seq<Reported>, extra: seq<Reported>)
    requires |extra| <= 1
    ensures AnyErrors(reported + extra) <==> AnyErrors(reported) || (extra != [] && extra[0].1.errors != [])
  {
    if extra != [] {
      assert (reported + extra)[..|reported + extra| - 1] == reported;
    } else {
      assert reported + extra == reported;
    }
  }

  lemma SomeInPrefix(files: seq<Entry>)
    requires files != []
    ensures (exists e :: e in files && HasErrors(e))
            <==> (exists e :: e in files[..|files| - 1] && HasErrors(e)) || HasErrors(files[|files| - 1])
  {
    var init, last := files[..|files| - 1], files[|files| - 1];
    assert files == init + [last];
    if e :| e in files && HasErrors(e) {
      if e != last {
        assert e in init;
      }
    }
  }

  /** `AnyFailing` holds exactly when some file has an error. */
  lemma {:induction false} AnyFailingMembers(files: seq<Entry>)
    ensures AnyFailing(files) <==> exists e :: e in files && HasErrors(e)
    decreases |files|
  {
    if files != [] {
      AnyFailingMembers(files[..|files| - 1]);
      SomeInPrefix(files);
    }
  }

  /** The exit status is decided by the `.md` files alone. */
  lemma ExitStatusByFiles(listing: seq<Entry>)
    ensures ExitStatus(listing) == if AnyFailing(MarkdownFiles(listing)) then 1 else 0
  {
    MarkdownFilesMembers(listing);
    AnyFailingMembers(MarkdownFiles(listing));
  }

  /** The printed reports show an error exactly when some linted file
      has one. */
  lemma {:induction false} ReportsShowFailures(files: seq<Entry>)
    ensures AnyErrors(ReportedFiles(files)) <==> AnyFailing(files)
    decreases |files|
  {
    if files != [] {
      var init, last := files[..|files| - 1], files[|files| - 1];
      ReportsShowFailures(init);
      var report := Lint(last.1);
      AnyErrorsAppend(ReportedFiles(init), if report.errors != [] || report.warnings != [] then [(last.0, report)] else []);
    }
  }

  /** The check fails exactly when some printed report lists an error. */
  lemma ExitStatusByReports(listing: seq<Entry>)
    ensures ExitStatus(listing) == if AnyErrors(ReportedFiles(MarkdownFiles(listing))) then 1 else 0
  {
    ExitStatusByFiles(listing);
    ReportsShowFailures(MarkdownFiles(listing));
  }

  /** Reading one file of the listing, whatever it holds, fails the check
      when the read raises; a file that is not `.md` is never read. */
  lemma RaisingFileFails(listing: seq<Entry>, e: Entry)
    requires e in listing && IsMarkdown(e.0) && Raises(e.1)
    ensures ExitStatus(listing) == 1
  {
    ReadErrorLast(e.1);
    assert FailsCheck(listing, e);
  }

  /** A directory without `.md` files passes, and nothing is reported. */
  lemma NoPostsPass(listing: seq<Entry>)
    requires forall i :: 0 <= i < |listing| ==> !IsMarkdown(listing[i].0)
    ensures ReportedFiles(MarkdownFiles(listing)) == []
    ensures ExitStatus(listing) == 0
  {
    NoMarkdownFiles(listing);
    ExitStatusByFiles(listing);
  }

  lemma {:induction false} NoMarkdownFiles(listing: seq<Entry>)
    requires forall i :: 0 <= i < |listing| ==> !IsMarkdown(listing[i].0)
    ensures MarkdownFiles(listing) == []
    decreases |listing|
  {
    if listing != [] {
      var init := listing[..|listing| - 1];
      assert forall i :: 0 <= i < |init| ==> init[i] == listing[i];
      NoMarkdownFiles(init);
    }
  }

  /** A directory with a note, a compliant post and a post with an empty
      frontmatter. */
  const SampleListing: seq<Entry> :=
    [("notes.txt", Unreadable), ("good.md", Loaded(CompliantPost)), ("empty.md", Loaded(map[]))]

  lemma SampleMarkdownFiles()
    ensures MarkdownFiles(SampleListing) == SampleListing[1..]
  {
    var listing := SampleListing;
    assert listing[..2][..1] == [("notes.txt", Unreadable)];
    assert MarkdownFiles(listing[..1]) == [];
    assert MarkdownFiles(listing[..2]) == [("good.md", Loaded(CompliantPost))];
  }

  /** Only the post with the empty frontmatter is reported, and it fails the
      check; the note is never read. */
  lemma SampleRun()
    ensures ReportedFiles(MarkdownFiles(SampleListing)) == [("empty.md", Lint(Loaded(map[])))]
    ensures ExitStatus(SampleListing) == 1
  {
    SampleMarkdownFiles();
    var files := SampleListing[1..];
    CompliantPostPasses();
    EmptyMetadata();
    assert files[..1] == [("good.md", Loaded(CompliantPost))];
    assert ReportedFiles(files[..1]) == [];
    assert FailsCheck(SampleListing, ("empty.md", Loaded(map[])));
  }
}
