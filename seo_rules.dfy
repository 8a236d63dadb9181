/** The SEO rule engine of the pre-commit linter: the threshold tables, the
    required keys, the messages, and `lint_file`, which checks one post's
    frontmatter and returns its errors and warnings. */
module SeoRules {
  import opened Wrappers
  import opened Frontmatter

  // Critical limits: a violation is an error and fails the commit.
  const TitleMax: nat := 70
  const TitleMin: nat := 10
  const DescMax: nat := 300
  const DescMin: nat := 10
  const SlugMax: nat := 100

  // Warning limits: a violation is advisory only.
  const TitleOptimalMax: nat := 60
  const DescOptimalMax: nat := 160
  const DescOptimalMin: nat := 50
  const SlugOptimalMax: nat := 75

  const RequiredKeys: seq<string> := ["title", "description", "image", "slug", "author", "created_at"]

  /** The block of `lint_file` a message comes from. */
  datatype Section = Existence | TitleChecks | DescriptionChecks | SlugChecks | ReadFailure

  /** A finding, identified by its tag and the length or key it reports;
      colours and the rest of the wording are not modelled. */
  datatype Message =
    | MissingKey(key: string)
    | TitleTooLong(length: nat)
    | TitleTruncated(length: nat)
    | TitleTooShort(length: nat)
    | DescSpam(length: nat)
    | DescTruncated(length: nat)
    | DescEmpty
    | DescWeak(length: nat)
    | SlugInvalid(slug: string)
    | SlugTooLong(length: nat)
    | SlugLong(length: nat)
    | FileReadError
  {
    /** The prefix the printed message starts with. */
    function Tag(): string {
      match this
      case MissingKey(_) => "MISSING KEY"
      case TitleTooLong(_) => "TITLE CRITICAL"
      case TitleTooShort(_) => "TITLE CRITICAL"
      case TitleTruncated(_) => "Title truncated"
      case DescSpam(_) => "DESC CRITICAL"
      case DescEmpty => "DESC CRITICAL"
      case DescTruncated(_) => "Desc truncated"
      case DescWeak(_) => "Desc weak"
      case SlugInvalid(_) => "SLUG INVALID"
      case SlugTooLong(_) => "SLUG CRITICAL"
      case SlugLong(_) => "Slug long"
      case FileReadError => "FILE READ ERROR"
    }

    function Section(): Section {
      match this
      case MissingKey(_) => Existence
      case TitleTooLong(_) => TitleChecks
      case TitleTooShort(_) => TitleChecks
      case TitleTruncated(_) => TitleChecks
      case DescSpam(_) => DescriptionChecks
      case DescEmpty => DescriptionChecks
      case DescTruncated(_) => DescriptionChecks
      case DescWeak(_) => DescriptionChecks
      case SlugInvalid(_) => SlugChecks
      case SlugTooLong(_) => SlugChecks
      case SlugLong(_) => SlugChecks
      case FileReadError => ReadFailure
    }
  }

  /** What opening and parsing one post file gave: a failure to open or to
      parse the frontmatter, or its metadata. */
  datatype PostFile = Unreadable | Loaded(metadata: Metadata)

  /** The pair `(errors, warnings)` that `lint_file` returns. */
  datatype Report = Report(errors: seq<Message>, warnings: seq<Message>)

  /** A key fails the existence check when it is absent or its value is falsy. */
  predicate Missing(meta: Metadata, key: string) {
    key !in meta || !Truthy(meta[key])
  }

  /** One MISSING KEY error per missing key, in the order of `keys`. */
  function MissingKeyErrors(meta: Metadata, keys: seq<string>): seq<Message>
  {
    if keys == [] then []
    else
      var key := keys[|keys| - 1];
      MissingKeyErrors(meta, keys[..|keys| - 1]) + (if Missing(meta, key) then [MissingKey(key)] else [])
  }

  // ---------------------------------------------------------------------
  // The slug pattern `re.match(r'^[a-z0-9-]+$', s)`.

  predicate SlugChar(c: char) {
    'a' <= c <= 'z' || '0' <= c <= '9' || c == '-'
  }

  /** How far the greedy `[a-z0-9-]+` runs from the start of `s`. */
  function LeadingRun(s: string): (k: nat)
    ensures k <= |s|
    ensures forall i :: 0 <= i < k ==> SlugChar(s[i])
    ensures k < |s| ==> !SlugChar(s[k])
  {
    if s == [] || !SlugChar(s[0]) then 0 else 1 + LeadingRun(s[1..])
  }

  /** Python's `$` matches at the end of the string and also just before a
      newline that ends it. The run cannot be cut short for `$` to match
      earlier, since a slug character is never a newline. */
  predicate SlugMatches(s: string) {
    var k := LeadingRun(s);
    0 < k && (k == |s| || (k == |s| - 1 && s[k] == '\n'))
  }

  // ---------------------------------------------------------------------
  // The length bands, listed from short to long.

  /** The one finding a field's length band produces, if any. */
  datatype Finding = Clean | Error(message: Message) | Warning(message: Message) {
    function Errors(): seq<Message> {
      if Error? then [message] else []
    }
    function Warnings(): seq<Message> {
      if Warning? then [message] else []
    }
  }

  function TitleFinding(n: nat): Finding {
    if n < TitleMin then Error(TitleTooShort(n))
    else if n <= TitleOptimalMax then Clean
    else if n <= TitleMax then Warning(TitleTruncated(n))
    else Error(TitleTooLong(n))
  }

  function DescFinding(n: nat): Finding {
    if n < DescMin then Error(DescEmpty)
    else if n < DescOptimalMin then Warning(DescWeak(n))
    else if n <= DescOptimalMax then Clean
    else if n <= DescMax then Warning(DescTruncated(n))
    else Error(DescSpam(n))
  }

  /** The band is chosen by the length `n` of `str(slug)`; the message
      reports `len(slug)`, which is `reported`. */
  function SlugLengthFinding(n: nat, reported: nat): Finding {
    if n <= SlugOptimalMax then Clean
    else if n <= SlugMax then Warning(SlugLong(reported))
    else Error(SlugTooLong(reported))
  }

  function SlugCharsetErrors(slug: string): seq<Message> {
    if SlugMatches(slug) then [] else [SlugInvalid(slug)]
  }

  /** `r` with `errors` and `warnings` found before it put in front. */
  function Prefixed(errors: seq<Message>, warnings: seq<Message>, r: Report): Report {
    Report(errors + r.errors, warnings + r.warnings)
  }

  /** The rest of the checks once Python has raised: the `except` records
      FILE READ ERROR and nothing else runs. */
  const Raised: Report := Report([FileReadError], [])

  /** `lint_file` on a file whose contents are `file`. A failure to open or
      parse the file, and every `len` that raises, ends the checks, keeps what
      was found so far and adds FILE READ ERROR. */
  function Lint(file: PostFile): Report {
    match file
    case Unreadable => Raised
    case Loaded(meta) => Prefixed(MissingKeyErrors(meta, RequiredKeys), [], TitleOnward(meta))
  }

  /** The title checks and all that follow them. */
  function TitleOnward(meta: Metadata): Report {
    var title := Get(meta, "title", Text(""));
    if Len(title).None? then Raised
    else
      var t := TitleFinding(Len(title).value);
      Prefixed(t.Errors(), t.Warnings(), DescriptionOnward(meta))
  }

  /** The description checks and the slug checks after them. */
  function DescriptionOnward(meta: Metadata): Report {
    var desc := Get(meta, "description", Text(""));
    if Len(desc).None? then Raised
    else
      var d := DescFinding(Len(desc).value);
      Prefixed(d.Errors(), d.Warnings(), SlugFindings(meta))
  }

  /** The slug checks: the pattern on `str(slug)`, then its length band. */
  function SlugFindings(meta: Metadata): Report {
    var slug := Get(meta, "slug", Text(""));
    Prefixed(SlugCharsetErrors(Str(slug)), [], SlugLengthOnward(meta))
  }

  /** The slug length band, chosen on `len(str(slug))`; only a band that
      fires evaluates `len(slug)`, which may raise. */
  function SlugLengthOnward(meta: Metadata): Report {
    var slug := Get(meta, "slug", Text(""));
    var n := |Str(slug)|;
    if n <= SlugOptimalMax then Report([], [])
    else if Len(slug).None? then Raised
    else
      var s := SlugLengthFinding(n, Len(slug).value);
      Report(s.Errors(), s.Warnings())
  }

  // Bookkeeping for LintFile: appending one message to the lists found so
  // far moves it out of the checks still to run.

  lemma AppendError(e: seq<Message>, w: seq<Message>, m: Message, r: Report)
    ensures Prefixed(e, w, Prefixed([m], [], r)) == Prefixed(e + [m], w, r)
  {
    assert e + ([m] + r.errors) == (e + [m]) + r.errors;
    assert w + ([] + r.warnings) == w + r.warnings;
  }

  lemma AppendWarning(e: seq<Message>, w: seq<Message>, m: Message, r: Report)
    ensures Prefixed(e, w, Prefixed([], [m], r)) == Prefixed(e, w + [m], r)
  {
    assert e + ([] + r.errors) == e + r.errors;
    assert w + ([m] + r.warnings) == (w + [m]) + r.warnings;
  }

  lemma AppendNothing(e: seq<Message>, w: seq<Message>, r: Report)
    ensures Prefixed(e, w, Prefixed([], [], r)) == Prefixed(e, w, r)
  {
    assert e + ([] + r.errors) == e + r.errors;
    assert w + ([] + r.warnings) == w + r.warnings;
  }

  lemma Finished(e: seq<Message>, w: seq<Message>)
    ensures Prefixed(e, w, Report([], [])) == Report(e, w)
  {
    assert e + [] == e && w + [] == w;
  }

  lemma LastError(e: seq<Message>, w: seq<Message>, m: Message)
    ensures Prefixed(e, w, Report([m], [])) == Report(e + [m], w)
  {
    assert w + [] == w;
  }

  lemma LastWarning(e: seq<Message>, w: seq<Message>, m: Message)
    ensures Prefixed(e, w, Report([], [m])) == Report(e, w + [m])
  {
    assert e + [] == e;
  }

  lemma RaisedHere(e: seq<Message>, w: seq<Message>)
    ensures Prefixed(e, w, Raised) == Report(e + [FileReadError], w)
  {
    assert w + [] == w;
  }

  /** `lint_file`, step by step as the source appends. */
  method LintFile(file: PostFile) returns (errors: seq<Message>, warnings: seq<Message>)
    ensures Report(errors, warnings) == Lint(file)
  {
    errors, warnings := [], [];
    if file.Unreadable? {
      errors := errors + [FileReadError];
      return;
    }
    var meta := file.metadata;

    // 1. Existence checks.
    for i := 0 to |RequiredKeys|
      invariant errors == MissingKeyErrors(meta, RequiredKeys[..i])
      invariant warnings == []
    {
      var key := RequiredKeys[i];
      assert RequiredKeys[..i + 1][..i] == RequiredKeys[..i];
      if key !in meta || !Truthy(meta[key]) {
        errors := errors + [MissingKey(key)];
      }
    }
    assert RequiredKeys[..|RequiredKeys|] == RequiredKeys;
    // What remains to be found is `rest`.
    ghost var rest := TitleOnward(meta);
    assert Lint(file) == Prefixed(errors, warnings, rest);

    // 2. Title checks.
    var title := Get(meta, "title", Text(""));
    if Len(title).None? {
      RaisedHere(errors, warnings);
      errors := errors + [FileReadError];
      return;
    }
    var titleLen := Len(title).value;
    rest := DescriptionOnward(meta);
    if titleLen > TitleMax {
      AppendError(errors, warnings, TitleTooLong(titleLen), rest);
      errors := errors + [TitleTooLong(titleLen)];
    } else if titleLen > TitleOptimalMax {
      AppendWarning(errors, warnings, TitleTruncated(titleLen), rest);
      warnings := warnings + [TitleTruncated(titleLen)];
    }
    if titleLen < TitleMin {
      AppendError(errors, warnings, TitleTooShort(titleLen), rest);
      errors := errors + [TitleTooShort(titleLen)];
    }
    if TitleMin <= titleLen <= TitleOptimalMax {
      AppendNothing(errors, warnings, rest);
    }
    assert Lint(file) == Prefixed(errors, warnings, rest);

    // 3. Description checks.
    var desc := Get(meta, "description", Text(""));
    if Len(desc).None? {
      RaisedHere(errors, warnings);
      errors := errors + [FileReadError];
      return;
    }
    var descLen := Len(desc).value;
    rest := SlugFindings(meta);
    if descLen > DescMax {
      AppendError(errors, warnings, DescSpam(descLen), rest);
      errors := errors + [DescSpam(descLen)];
    } else if descLen > DescOptimalMax {
      AppendWarning(errors, warnings, DescTruncated(descLen), rest);
      warnings := warnings + [DescTruncated(descLen)];
    }
    if descLen < DescMin {
      AppendError(errors, warnings, DescEmpty, rest);
      errors := errors + [DescEmpty];
    } else if descLen < DescOptimalMin {
      AppendWarning(errors, warnings, DescWeak(descLen), rest);
      warnings := warnings + [DescWeak(descLen)];
    }
    if DescOptimalMin <= descLen <= DescOptimalMax {
      AppendNothing(errors, warnings, rest);
    }
    assert Lint(file) == Prefixed(errors, warnings, rest);

    // 4. Slug checks.
    var slug := Get(meta, "slug", Text(""));
    rest := SlugLengthOnward(meta);
    if !SlugMatches(Str(slug)) {
      AppendError(errors, warnings, SlugInvalid(Str(slug)), rest);
      errors := errors + [SlugInvalid(Str(slug))];
    } else {
      AppendNothing(errors, warnings, rest);
    }
    assert Lint(file) == Prefixed(errors, warnings, rest);
    if |Str(slug)| > SlugMax {
      if Len(slug).None? {
        RaisedHere(errors, warnings);
        errors := errors + [FileReadError];
        return;
      }
      assert rest == Report([SlugTooLong(Len(slug).value)], []);
      LastError(errors, warnings, SlugTooLong(Len(slug).value));
      errors := errors + [SlugTooLong(Len(slug).value)];
    } else if |Str(slug)| > SlugOptimalMax {
      if Len(slug).None? {
        RaisedHere(errors, warnings);
        errors := errors + [FileReadError];
        return;
      }
      assert rest == Report([], [SlugLong(Len(slug).value)]);
      LastWarning(errors, warnings, SlugLong(Len(slug).value));
      warnings := warnings + [SlugLong(Len(slug).value)];
    } else {
      assert rest == Report([], []);
      Finished(errors, warnings);
    }
  }
}
