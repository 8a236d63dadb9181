/** What the rule engine promises: which message each key and each length
    band produces, in what order, and where a raised exception leaves the
    findings. */
module SeoProperties {
  import opened Wrappers
  import opened Frontmatter
  import opened SeoRules

  /** The messages of `s` that come from section `sec`, in order. */
  function OfSection(s: seq<Message>, sec: Section): (r: seq<Message>)
    ensures |r| <= |s|
  {
    if s == [] then []
    else (if s[0].Section() == sec then [s[0]] else []) + OfSection(s[1..], sec)
  }

  /** Every message of `s` comes from one of the sections `secs`. */
  predicate Within(s: seq<Message>, secs: set<Section>) {
    forall i :: 0 <= i < |s| ==> s[i].Section() in secs
  }

  lemma {:induction false} OfSectionConcat(a: seq<Message>, b: seq<Message>, sec: Section)
    ensures OfSection(a + b, sec) == OfSection(a, sec) + OfSection(b, sec)
  {
    if a == [] {
      assert a + b == b;
    } else {
      assert (a + b)[0] == a[0];
      assert (a + b)[1..] == a[1..] + b;
      OfSectionConcat(a[1..], b, sec);
      if a[0].Section() == sec {
        assert OfSection(a + b, sec) == [a[0]] + OfSection(a[1..] + b, sec);
        assert OfSection(a, sec) == [a[0]] + OfSection(a[1..], sec);
        assert [a[0]] + (OfSection(a[1..], sec) + OfSection(b, sec))
            == ([a[0]] + OfSection(a[1..], sec)) + OfSection(b, sec);
      } else {
        assert OfSection(a + b, sec) == OfSection(a[1..] + b, sec);
        assert OfSection(a, sec) == OfSection(a[1..], sec);
      }
    }
  }

  lemma {:induction false} OfSectionWithin(s: seq<Message>, secs: set<Section>, sec: Section)
    requires Within(s, secs)
    ensures sec !in secs ==> OfSection(s, sec) == []
    ensures secs == {sec} ==> OfSection(s, sec) == s
  {
    if s != [] {
      OfSectionWithin(s[1..], secs, sec);
      assert s == [s[0]] + s[1..];
    }
  }

  lemma OfSectionPrefixed(e: seq<Message>, w: seq<Message>, r: Report, sec: Section)
    ensures OfSection(Prefixed(e, w, r).errors, sec) == OfSection(e, sec) + OfSection(r.errors, sec)
    ensures OfSection(Prefixed(e, w, r).warnings, sec) == OfSection(w, sec) + OfSection(r.warnings, sec)
  {
    OfSectionConcat(e, r.errors, sec);
    OfSectionConcat(w, r.warnings, sec);
  }

  lemma WithinExcludes(s: seq<Message>, secs: set<Section>, m: Message)
    requires Within(s, secs) && m.Section() !in secs
    ensures m !in s
  {
  }

  lemma {:induction false} MissingKeyErrorsWithin(meta: Metadata, keys: seq<string>)
    ensures Within(MissingKeyErrors(meta, keys), {Existence})
    ensures forall m :: m in MissingKeyErrors(meta, keys) ==> m.MissingKey?
  {
    if keys != [] {
      MissingKeyErrorsWithin(meta, keys[..|keys| - 1]);
    }
  }

  // ---------------------------------------------------------------------
  // The sections each stage of the checks can report from.

  lemma SlugFindingsWithin(meta: Metadata)
    ensures Within(SlugLengthOnward(meta).errors, {SlugChecks, ReadFailure})
    ensures Within(SlugLengthOnward(meta).warnings, {SlugChecks})
    ensures Within(SlugFindings(meta).errors, {SlugChecks, ReadFailure})
    ensures Within(SlugFindings(meta).warnings, {SlugChecks})
  {
  }

  lemma DescriptionOnwardWithin(meta: Metadata)
    ensures Within(DescriptionOnward(meta).errors, {DescriptionChecks, SlugChecks, ReadFailure})
    ensures Within(DescriptionOnward(meta).warnings, {DescriptionChecks, SlugChecks})
  {
    if DescLength(meta).Some? {
      var d := DescFinding(DescLength(meta).value);
      var rest := SlugFindings(meta);
      assert DescriptionOnward(meta) == Prefixed(d.Errors(), d.Warnings(), rest);
      DescBands(DescLength(meta).value);
      FindingWithin(d, {DescriptionChecks, SlugChecks, ReadFailure});
      FindingWithin(d, {DescriptionChecks, SlugChecks});
      SlugFindingsWithin(meta);
      WithinConcat(d.Errors(), rest.errors, {DescriptionChecks, SlugChecks, ReadFailure});
      WithinConcat(d.Warnings(), rest.warnings, {DescriptionChecks, SlugChecks});
    }
  }


  lemma TitleOnwardWithin(meta: Metadata)
    ensures Within(TitleOnward(meta).errors, {TitleChecks, DescriptionChecks, SlugChecks, ReadFailure})
    ensures Within(TitleOnward(meta).warnings, {TitleChecks, DescriptionChecks, SlugChecks})
  {
    if TitleLength(meta).Some? {
      var t := TitleFinding(TitleLength(meta).value);
      var rest := DescriptionOnward(meta);
      assert TitleOnward(meta) == Prefixed(t.Errors(), t.Warnings(), rest);
      TitleBands(TitleLength(meta).value);
      FindingWithin(t, {TitleChecks, DescriptionChecks, SlugChecks, ReadFailure});
      FindingWithin(t, {TitleChecks, DescriptionChecks, SlugChecks});
      DescriptionOnwardWithin(meta);
      WithinConcat(t.Errors(), rest.errors, {TitleChecks, DescriptionChecks, SlugChecks, ReadFailure});
      WithinConcat(t.Warnings(), rest.warnings, {TitleChecks, DescriptionChecks, SlugChecks});
    }
  }

  lemma WithinConcat(a: seq<Message>, b: seq<Message>, secs: set<Section>)
    requires Within(a, secs) && Within(b, secs)
    ensures Within(a + b, secs)
  {
    forall i | 0 <= i < |a + b|
      ensures (a + b)[i].Section() in secs
    {
      if i >= |a| {
        assert (a + b)[i] == b[i - |a|];
      }
    }
  }

  lemma FindingWithin(f: Finding, secs: set<Section>)
    requires !f.Clean? ==> f.message.Section() in secs
    ensures Within(f.Errors(), secs) && Within(f.Warnings(), secs)
  {
  }


  /** The length of the title as `len` sees it, when it has one. */
  function TitleLength(meta: Metadata): Option<nat> {
    Len(Get(meta, "title", Text("")))
  }

  function DescLength(meta: Metadata): Option<nat> {
    Len(Get(meta, "description", Text("")))
  }

  /** `str(slug)`, the text the slug checks look at. */
  function SlugText(meta: Metadata): string {
    Str(Get(meta, "slug", Text("")))
  }

  // ---------------------------------------------------------------------
  // Existence checks.

  lemma {:induction false} MissingKeyErrorsCount(meta: Metadata, keys: seq<string>, key: string)
    requires forall i, j :: 0 <= i < j < |keys| ==> keys[i] != keys[j]
    ensures multiset(MissingKeyErrors(meta, keys))[MissingKey(key)] == if key in keys && Missing(meta, key) then 1 else 0
  {
    if keys != [] {
      var init, last := keys[..|keys| - 1], keys[|keys| - 1];
      MissingKeyErrorsCount(meta, init, key);
      var tail := if Missing(meta, last) then [MissingKey(last)] else [];
      assert MissingKeyErrors(meta, keys) == MissingKeyErrors(meta, init) + tail;
      assert multiset(MissingKeyErrors(meta, keys)) == multiset(MissingKeyErrors(meta, init)) + multiset(tail);
      assert keys == init + [last];
      assert key in keys <==> key in init || key == last;
      assert last !in init;
    }
  }

  /** The MISSING KEY errors come first, one per missing required key in
      the order of the required keys; they are all the existence errors, so
      none follows them. */
  lemma MissingKeysFirst(file: PostFile)
    requires file.Loaded?
    ensures var existence := MissingKeyErrors(file.metadata, RequiredKeys);
            var errors := Lint(file).errors;
            && existence <= errors
            && OfSection(errors, Existence) == existence
  {
    var meta := file.metadata;
    var existence := MissingKeyErrors(meta, RequiredKeys);
    var rest := TitleOnward(meta).errors;
    assert Lint(file).errors == existence + rest;
    TitleOnwardWithin(meta);
    OfSectionConcat(existence, rest, Existence);
    MissingKeyErrorsWithin(meta, RequiredKeys);
    OfSectionWithin(existence, {Existence}, Existence);
    OfSectionWithin(rest, {TitleChecks, DescriptionChecks, SlugChecks, ReadFailure}, Existence);
  }

  /** Exactly one MISSING KEY error names each required key that is absent
      or falsy, and none names any other key. */
  lemma MissingKeyExactlyOnce(file: PostFile, key: string)
    requires file.Loaded?
    ensures multiset(Lint(file).errors)[MissingKey(key)]
            == if key in RequiredKeys && Missing(file.metadata, key) then 1 else 0
  {
    var meta := file.metadata;
    var existence := MissingKeyErrors(meta, RequiredKeys);
    var rest := TitleOnward(meta).errors;
    assert Lint(file).errors == existence + rest;
    assert MissingKey(key) !in rest by {
      TitleOnwardWithin(meta);
      WithinExcludes(rest, {TitleChecks, DescriptionChecks, SlugChecks, ReadFailure}, MissingKey(key));
    }
    assert multiset(Lint(file).errors) == multiset(existence) + multiset(rest);
    MissingKeyErrorsCount(meta, RequiredKeys, key);
  }

  /** The printed tag tells which check a message comes from: two messages
      with the same tag come from the same section. */
  lemma TagsIdentifySection(m: Message, other: Message)
    ensures m.Tag() == other.Tag() ==> m.Section() == other.Section()
  {
  }

  /** Both title errors print as TITLE CRITICAL and both description errors
      as DESC CRITICAL; the warnings of those fields print differently. */
  lemma CriticalTags(n: nat, k: nat)
    ensures TitleTooLong(n).Tag() == TitleTooShort(k).Tag() == "TITLE CRITICAL"
    ensures DescSpam(n).Tag() == DescEmpty.Tag() == "DESC CRITICAL"
    ensures TitleTruncated(n).Tag() != "TITLE CRITICAL"
    ensures DescTruncated(n).Tag() != "DESC CRITICAL" && DescWeak(k).Tag() != "DESC CRITICAL"
  {
  }

  /** With a measurable title of length n, the report has an error tagged
      TITLE CRITICAL exactly when n is above 70 or below 10. */
  lemma TitleCriticalReported(file: PostFile)
    requires file.Loaded? && TitleLength(file.metadata).Some?
    ensures var n, errors := TitleLength(file.metadata).value, Lint(file).errors;
            (exists m :: m in errors && m.Tag() == "TITLE CRITICAL") <==> (n > TitleMax || n < TitleMin)
  {
    var n, errors := TitleLength(file.metadata).value, Lint(file).errors;
    TitleLengthFindings(file);
    var title := OfSection(errors, TitleChecks);
    if n > TitleMax || n < TitleMin {
      var m := title[0];
      CriticalTags(n, n);
      OfSectionMembers(errors, TitleChecks, m);
      assert m in errors && m.Tag() == "TITLE CRITICAL";
    }
    forall m | m in errors && m.Tag() == "TITLE CRITICAL"
      ensures n > TitleMax || n < TitleMin
    {
      TagsIdentifySection(m, TitleTooLong(n));
      OfSectionMembers(errors, TitleChecks, m);
    }
  }

  lemma FindingSections(f: Finding, sec: Section)
    ensures OfSection(f.Errors(), sec) == if f.Error? && f.message.Section() == sec then f.Errors() else []
    ensures OfSection(f.Warnings(), sec) == if f.Warning? && f.message.Section() == sec then f.Warnings() else []
  {
    if !f.Clean? {
      assert [f.message][1..] == [];
    }
  }

  lemma TitleBands(n: nat)
    ensures TitleFinding(n).Errors()
            == (if n > TitleMax then [TitleTooLong(n)] else if n < TitleMin then [TitleTooShort(n)] else [])
    ensures TitleFinding(n).Warnings() == (if TitleOptimalMax < n <= TitleMax then [TitleTruncated(n)] else [])
    ensures !TitleFinding(n).Clean? ==> TitleFinding(n).message.Section() == TitleChecks
  {
  }

  lemma DescBands(n: nat)
    ensures DescFinding(n).Errors()
            == (if n > DescMax then [DescSpam(n)] else if n < DescMin then [DescEmpty] else [])
    ensures DescFinding(n).Warnings()
            == (if DescOptimalMax < n <= DescMax then [DescTruncated(n)]
                else if DescMin <= n < DescOptimalMin then [DescWeak(n)] else [])
    ensures !DescFinding(n).Clean? ==> DescFinding(n).message.Section() == DescriptionChecks
  {
  }

  // ---------------------------------------------------------------------
  // The report, stage by stage, as one section sees it.

  /** Outside the existence checks, a section of the report is that section
      of everything from the title checks on. */
  lemma LintSections(file: PostFile, sec: Section)
    requires file.Loaded? && sec != Existence
    ensures OfSection(Lint(file).errors, sec) == OfSection(TitleOnward(file.metadata).errors, sec)
    ensures OfSection(Lint(file).warnings, sec) == OfSection(TitleOnward(file.metadata).warnings, sec)
  {
    var meta := file.metadata;
    var existence := MissingKeyErrors(meta, RequiredKeys);
    OfSectionPrefixed(existence, [], TitleOnward(meta), sec);
    MissingKeyErrorsWithin(meta, RequiredKeys);
    OfSectionWithin(existence, {Existence}, sec);
    assert OfSection([], sec) == [];
  }

  lemma TitleOnwardSections(meta: Metadata, sec: Section)
    requires TitleLength(meta).Some?
    ensures var t := TitleFinding(TitleLength(meta).value);
            && OfSection(TitleOnward(meta).errors, sec) == OfSection(t.Errors(), sec) + OfSection(DescriptionOnward(meta).errors, sec)
            && OfSection(TitleOnward(meta).warnings, sec) == OfSection(t.Warnings(), sec) + OfSection(DescriptionOnward(meta).warnings, sec)
  {
    var t := TitleFinding(TitleLength(meta).value);
    assert TitleOnward(meta) == Prefixed(t.Errors(), t.Warnings(), DescriptionOnward(meta));
    OfSectionPrefixed(t.Errors(), t.Warnings(), DescriptionOnward(meta), sec);
  }

  lemma DescriptionOnwardSections(meta: Metadata, sec: Section)
    requires DescLength(meta).Some?
    ensures var d := DescFinding(DescLength(meta).value);
            && OfSection(DescriptionOnward(meta).errors, sec) == OfSection(d.Errors(), sec) + OfSection(SlugFindings(meta).errors, sec)
            && OfSection(DescriptionOnward(meta).warnings, sec) == OfSection(d.Warnings(), sec) + OfSection(SlugFindings(meta).warnings, sec)
  {
    var d := DescFinding(DescLength(meta).value);
    assert DescriptionOnward(meta) == Prefixed(d.Errors(), d.Warnings(), SlugFindings(meta));
    OfSectionPrefixed(d.Errors(), d.Warnings(), SlugFindings(meta), sec);
  }

  // ---------------------------------------------------------------------
  // Title checks.

  /** The title section of the report is the finding of the title's band. */
  lemma TitleSection(file: PostFile)
    requires file.Loaded? && TitleLength(file.metadata).Some?
    ensures var t := TitleFinding(TitleLength(file.metadata).value);
            && OfSection(Lint(file).errors, TitleChecks) == t.Errors()
            && OfSection(Lint(file).warnings, TitleChecks) == t.Warnings()
  {
    var meta := file.metadata;
    var t := TitleFinding(TitleLength(meta).value);
    var rest := DescriptionOnward(meta);
    LintSections(file, TitleChecks);
    TitleOnwardSections(meta, TitleChecks);
    TitleBands(TitleLength(meta).value);
    FindingSections(t, TitleChecks);
    assert OfSection(rest.errors, TitleChecks) == [] && OfSection(rest.warnings, TitleChecks) == [] by {
      DescriptionOnwardWithin(meta);
      OfSectionWithin(rest.errors, {DescriptionChecks, SlugChecks, ReadFailure}, TitleChecks);
      OfSectionWithin(rest.warnings, {DescriptionChecks, SlugChecks}, TitleChecks);
    }
    assert t.Errors() + [] == t.Errors() && t.Warnings() + [] == t.Warnings();
  }


  /** A measurable title of length n yields TITLE CRITICAL above 70 and
      below 10, a truncation warning from 61 to 70 and nothing from 10 to 60,
      so at most one title finding; it stays even when a later check raises. */
  lemma TitleLengthFindings(file: PostFile)
    requires file.Loaded? && TitleLength(file.metadata).Some?
    ensures var n := TitleLength(file.metadata).value;
            var r := Lint(file);
            && OfSection(r.errors, TitleChecks)
               == (if n > TitleMax then [TitleTooLong(n)] else if n < TitleMin then [TitleTooShort(n)] else [])
            && OfSection(r.warnings, TitleChecks)
               == (if TitleOptimalMax < n <= TitleMax then [TitleTruncated(n)] else [])
            && |OfSection(r.errors, TitleChecks)| + |OfSection(r.warnings, TitleChecks)| <= 1
  {
    TitleSection(file);
    TitleBands(TitleLength(file.metadata).value);
  }

  // ---------------------------------------------------------------------
  // Description checks.

  /** The description section of the report is the finding of the
      description's band. */
  lemma DescriptionSection(file: PostFile)
    requires file.Loaded? && TitleLength(file.metadata).Some? && DescLength(file.metadata).Some?
    ensures var d := DescFinding(DescLength(file.metadata).value);
            && OfSection(Lint(file).errors, DescriptionChecks) == d.Errors()
            && OfSection(Lint(file).warnings, DescriptionChecks) == d.Warnings()
  {
    var meta := file.metadata;
    var t := TitleFinding(TitleLength(meta).value);
    var d := DescFinding(DescLength(meta).value);
    var rest := SlugFindings(meta);
    assert OfSection(t.Errors(), DescriptionChecks) == [] && OfSection(t.Warnings(), DescriptionChecks) == [] by {
      TitleBands(TitleLength(meta).value);
      FindingSections(t, DescriptionChecks);
    }
    assert OfSection(d.Errors(), DescriptionChecks) == d.Errors() && OfSection(d.Warnings(), DescriptionChecks) == d.Warnings() by {
      DescBands(DescLength(meta).value);
      FindingSections(d, DescriptionChecks);
    }
    assert OfSection(rest.errors, DescriptionChecks) == [] && OfSection(rest.warnings, DescriptionChecks) == [] by {
      SlugFindingsWithin(meta);
      OfSectionWithin(rest.errors, {SlugChecks, ReadFailure}, DescriptionChecks);
      OfSectionWithin(rest.warnings, {SlugChecks}, DescriptionChecks);
    }
    calc {
      OfSection(Lint(file).errors, DescriptionChecks);
    == { LintSections(file, DescriptionChecks); }
      OfSection(TitleOnward(meta).errors, DescriptionChecks);
    == { TitleOnwardSections(meta, DescriptionChecks); }
      [] + OfSection(DescriptionOnward(meta).errors, DescriptionChecks);
    == { DescriptionOnwardSections(meta, DescriptionChecks); }
      [] + (d.Errors() + []);
    == d.Errors();
    }
    calc {
      OfSection(Lint(file).warnings, DescriptionChecks);
    == { LintSections(file, DescriptionChecks); }
      OfSection(TitleOnward(meta).warnings, DescriptionChecks);
    == { TitleOnwardSections(meta, DescriptionChecks); }
      [] + OfSection(DescriptionOnward(meta).warnings, DescriptionChecks);
    == { DescriptionOnwardSections(meta, DescriptionChecks); }
      [] + (d.Warnings() + []);
    == d.Warnings();
    }
  }



  /** A measurable description of length n yields DESC CRITICAL above 300
      and below 10, a truncation warning from 161 to 300, a weak warning
      from 10 to 49 and nothing from 50 to 160: at most one finding. */
  lemma DescLengthFindings(file: PostFile)
    requires file.Loaded? && TitleLength(file.metadata).Some? && DescLength(file.metadata).Some?
    ensures var n := DescLength(file.metadata).value;
            var r := Lint(file);
            && OfSection(r.errors, DescriptionChecks)
               == (if n > DescMax then [DescSpam(n)] else if n < DescMin then [DescEmpty] else [])
            && OfSection(r.warnings, DescriptionChecks)
               == (if DescOptimalMax < n <= DescMax then [DescTruncated(n)]
                   else if DescMin <= n < DescOptimalMin then [DescWeak(n)] else [])
            && |OfSection(r.errors, DescriptionChecks)| + |OfSection(r.warnings, DescriptionChecks)| <= 1
  {
    DescriptionSection(file);
    DescBands(DescLength(file.metadata).value);
  }

  // ---------------------------------------------------------------------
  // Slug checks.

  /** The slug section of the report: the pattern error, then the length
      band's finding. */
  lemma SlugSection(file: PostFile)
    requires file.Loaded? && TitleLength(file.metadata).Some? && DescLength(file.metadata).Some?
    ensures var lengthPart := SlugLengthOnward(file.metadata);
            && OfSection(Lint(file).errors, SlugChecks)
               == SlugCharsetErrors(SlugText(file.metadata)) + OfSection(lengthPart.errors, SlugChecks)
            && OfSection(Lint(file).warnings, SlugChecks) == lengthPart.warnings
  {
    var meta := file.metadata;
    var t := TitleFinding(TitleLength(meta).value);
    var d := DescFinding(DescLength(meta).value);
    var charset := SlugCharsetErrors(SlugText(meta));
    var lengthPart := SlugLengthOnward(meta);
    LintSections(file, SlugChecks);
    TitleOnwardSections(meta, SlugChecks);
    assert OfSection(t.Errors(), SlugChecks) == [] && OfSection(t.Warnings(), SlugChecks) == [] by {
      TitleBands(TitleLength(meta).value);
      FindingSections(t, SlugChecks);
    }
    DescriptionOnwardSections(meta, SlugChecks);
    assert OfSection(d.Errors(), SlugChecks) == [] && OfSection(d.Warnings(), SlugChecks) == [] by {
      DescBands(DescLength(meta).value);
      FindingSections(d, SlugChecks);
    }
    assert SlugFindings(meta) == Prefixed(charset, [], lengthPart);
    OfSectionPrefixed(charset, [], lengthPart, SlugChecks);
    CharsetSection(SlugText(meta));
    assert OfSection(lengthPart.warnings, SlugChecks) == lengthPart.warnings by {
      SlugFindingsWithin(meta);
      OfSectionWithin(lengthPart.warnings, {SlugChecks}, SlugChecks);
    }
    assert OfSection([], SlugChecks) == [];
  }


  lemma CharsetSection(s: string)
    ensures OfSection(SlugCharsetErrors(s), SlugChecks) == SlugCharsetErrors(s)
    ensures OfSection(SlugCharsetErrors(s), ReadFailure) == []
  {
    if !SlugMatches(s) {
      assert [SlugInvalid(s)][1..] == [];
    }
  }

  /** Once the title and the description have been measured, SLUG INVALID is
      reported exactly when `str(slug)` fails the pattern, whatever its length
      and even when measuring the slug afterwards raises. */
  lemma SlugCharsetFinding(file: PostFile)
    requires file.Loaded? && TitleLength(file.metadata).Some? && DescLength(file.metadata).Some?
    ensures var s := SlugText(file.metadata);
            SlugCharsetErrors(s) <= OfSection(Lint(file).errors, SlugChecks)
            && (SlugInvalid(s) in Lint(file).errors <==> !SlugMatches(s))
  {
    var meta := file.metadata;
    var s := SlugText(meta);
    SlugSection(file);
    var lengthPart := SlugLengthOnward(meta);
    assert SlugInvalid(s) !in lengthPart.errors;
    assert SlugInvalid(s) in Lint(file).errors <==> SlugInvalid(s) in OfSection(Lint(file).errors, SlugChecks) by {
      OfSectionMembers(Lint(file).errors, SlugChecks, SlugInvalid(s));
    }
    assert SlugInvalid(s) !in OfSection(lengthPart.errors, SlugChecks) by {
      OfSectionMembers(lengthPart.errors, SlugChecks, SlugInvalid(s));
    }
  }

  lemma {:induction false} OfSectionMembers(s: seq<Message>, sec: Section, m: Message)
    requires m.Section() == sec
    ensures m in OfSection(s, sec) <==> m in s
  {
    if s != [] {
      OfSectionMembers(s[1..], sec, m);
      assert s == [s[0]] + s[1..];
    }
  }

  /** With title and description measurable, and n the length of
      `str(slug)`: no length finding up to 75; above that, where `len(slug)`
      is taken and must not raise, a long-slug warning up to 100 and SLUG
      CRITICAL beyond, both reporting `len(slug)`, which for a string slug is
      n. */
  lemma SlugLengthFindings(file: PostFile)
    requires file.Loaded? && TitleLength(file.metadata).Some? && DescLength(file.metadata).Some?
    requires |SlugText(file.metadata)| > SlugOptimalMax ==> Len(Get(file.metadata, "slug", Text(""))).Some?
    ensures var s := SlugText(file.metadata);
            var n, len := |s|, Len(Get(file.metadata, "slug", Text("")));
            var r := Lint(file);
            && (n <= SlugOptimalMax ==>
                  OfSection(r.errors, SlugChecks) == SlugCharsetErrors(s) && OfSection(r.warnings, SlugChecks) == [])
            && (n > SlugOptimalMax ==>
                  && OfSection(r.errors, SlugChecks) == SlugCharsetErrors(s) + (if n > SlugMax then [SlugTooLong(len.value)] else [])
                  && OfSection(r.warnings, SlugChecks) == (if n <= SlugMax then [SlugLong(len.value)] else []))
            && (Get(file.metadata, "slug", Text("")).Text? ==> len == Some(n))
  {
    SlugSection(file);
    SlugLengthParts(file.metadata);
    assert SlugCharsetErrors(SlugText(file.metadata)) + [] == SlugCharsetErrors(SlugText(file.metadata));
  }

  /** The length band's part of the report when it does not raise. */
  lemma SlugLengthParts(meta: Metadata)
    requires |SlugText(meta)| > SlugOptimalMax ==> Len(Get(meta, "slug", Text(""))).Some?
    ensures var n, len := |SlugText(meta)|, Len(Get(meta, "slug", Text("")));
            var p := SlugLengthOnward(meta);
            && (n <= SlugOptimalMax ==> p == Report([], []))
            && (n > SlugOptimalMax ==>
                  && p.errors == (if n > SlugMax then [SlugTooLong(len.value)] else [])
                  && p.warnings == (if n <= SlugMax then [SlugLong(len.value)] else []))
            && OfSection(p.errors, SlugChecks) == p.errors
  {
    var len := Len(Get(meta, "slug", Text("")));
    if len.Some? {
      assert [SlugTooLong(len.value)][1..] == [];
    }
  }



  // ---------------------------------------------------------------------
  // The exception path.

  /** Where the body of the source's `try` raises: opening or parsing the
      file fails, `len` is taken of a title or description that has none, or
      a slug whose text is longer than 75 characters has no `len`. */
  predicate Raises(file: PostFile) {
    match file
    case Unreadable => true
    case Loaded(meta) =>
      || TitleLength(meta).None?
      || DescLength(meta).None?
      || (|SlugText(meta)| > SlugOptimalMax && Len(Get(meta, "slug", Text(""))).None?)
  }

  lemma SlugRaised(meta: Metadata)
    ensures var r := SlugFindings(meta);
            var raises := |SlugText(meta)| > SlugOptimalMax && Len(Get(meta, "slug", Text(""))).None?;
            && OfSection(r.errors, ReadFailure) == (if raises then [FileReadError] else [])
            && (raises ==> r.errors != [] && r.errors[|r.errors| - 1] == FileReadError)
  {
    var slug := Get(meta, "slug", Text(""));
    var lengthPart := SlugLengthOnward(meta);
    OfSectionPrefixed(SlugCharsetErrors(SlugText(meta)), [], lengthPart, ReadFailure);
    CharsetSection(SlugText(meta));
    if |SlugText(meta)| <= SlugOptimalMax {
      assert lengthPart.errors == [];
    } else if Len(slug).None? {
      assert lengthPart.errors == [FileReadError];
      assert [FileReadError][1..] == [];
    } else {
      var f := SlugLengthFinding(|SlugText(meta)|, Len(slug).value);
      assert lengthPart.errors == f.Errors();
      FindingSections(f, ReadFailure);
    }
  }

  lemma DescriptionRaised(meta: Metadata)
    ensures var r := DescriptionOnward(meta);
            var raises := DescLength(meta).None?
                          || (|SlugText(meta)| > SlugOptimalMax && Len(Get(meta, "slug", Text(""))).None?);
            && OfSection(r.errors, ReadFailure) == (if raises then [FileReadError] else [])
            && (raises ==> r.errors != [] && r.errors[|r.errors| - 1] == FileReadError)
  {
    if DescLength(meta).None? {
      assert [FileReadError][1..] == [];
    } else {
      var d := DescFinding(DescLength(meta).value);
      var rest := SlugFindings(meta);
      SlugRaised(meta);
      assert OfSection(d.Errors(), ReadFailure) == [] by {
        DescBands(DescLength(meta).value);
        FindingSections(d, ReadFailure);
      }
      DescriptionOnwardSections(meta, ReadFailure);
      var errors := DescriptionOnward(meta).errors;
      assert errors == d.Errors() + rest.errors;
      assert OfSection(errors, ReadFailure) == OfSection(rest.errors, ReadFailure) by {
        assert [] + OfSection(rest.errors, ReadFailure) == OfSection(rest.errors, ReadFailure);
      }
      if |SlugText(meta)| > SlugOptimalMax && Len(Get(meta, "slug", Text(""))).None? {
        assert errors[|errors| - 1] == rest.errors[|rest.errors| - 1];
      }
    }
  }

  lemma TitleRaised(meta: Metadata)
    ensures var r := TitleOnward(meta);
            && OfSection(r.errors, ReadFailure) == (if Raises(Loaded(meta)) then [FileReadError] else [])
            && (Raises(Loaded(meta)) ==> r.errors != [] && r.errors[|r.errors| - 1] == FileReadError)
  {
    if TitleLength(meta).None? {
      assert [FileReadError][1..] == [];
    } else {
      var t := TitleFinding(TitleLength(meta).value);
      var rest := DescriptionOnward(meta);
      var later := DescLength(meta).None?
                   || (|SlugText(meta)| > SlugOptimalMax && Len(Get(meta, "slug", Text(""))).None?);
      assert Raises(Loaded(meta)) == later;
      DescriptionRaised(meta);
      assert OfSection(t.Errors(), ReadFailure) == [] by {
        TitleBands(TitleLength(meta).value);
        FindingSections(t, ReadFailure);
      }
      TitleOnwardSections(meta, ReadFailure);
      var errors := TitleOnward(meta).errors;
      assert errors == t.Errors() + rest.errors;
      assert OfSection(errors, ReadFailure) == OfSection(rest.errors, ReadFailure) by {
        assert [] + OfSection(rest.errors, ReadFailure) == OfSection(rest.errors, ReadFailure);
      }
      if later {
        assert errors[|errors| - 1] == rest.errors[|rest.errors| - 1];
      }
    }
  }



  /** `lint_file` never raises: an exception adds one FILE READ ERROR, after
      whatever was found before it, and it is the last error; without one
      there is no FILE READ ERROR. */
  lemma ReadErrorLast(file: PostFile)
    ensures var errors := Lint(file).errors;
            && (FileReadError in errors <==> Raises(file))
            && OfSection(errors, ReadFailure) == (if Raises(file) then [FileReadError] else [])
            && (Raises(file) ==> errors[|errors| - 1] == FileReadError)
  {
    ReadErrorSection(file);
    OfSectionMembers(Lint(file).errors, ReadFailure, FileReadError);
  }

  lemma ReadErrorSection(file: PostFile)
    ensures var errors := Lint(file).errors;
            && OfSection(errors, ReadFailure) == (if Raises(file) then [FileReadError] else [])
            && (Raises(file) ==> errors != [] && errors[|errors| - 1] == FileReadError)
  {
    if file.Unreadable? {
      assert [FileReadError][1..] == [];
    } else {
      var meta := file.metadata;
      var rest := TitleOnward(meta).errors;
      var errors := Lint(file).errors;
      assert OfSection(errors, ReadFailure) == OfSection(rest, ReadFailure) by {
        LintSections(file, ReadFailure);
      }
      assert OfSection(rest, ReadFailure) == (if Raises(file) then [FileReadError] else [])
          && (Raises(file) ==> rest != [] && rest[|rest| - 1] == FileReadError) by {
        TitleRaised(meta);
      }
      if Raises(file) {
        assert errors == MissingKeyErrors(meta, RequiredKeys) + rest;
        assert errors[|errors| - 1] == rest[|rest| - 1];
      }
    }
  }



  // ---------------------------------------------------------------------
  // Missing fields and their defaults.

  /** A missing title defaults to the empty string, so besides MISSING KEY
      it also fails the title minimum. */
  lemma MissingTitle(file: PostFile)
    requires file.Loaded? && "title" !in file.metadata
    ensures MissingKey("title") in Lint(file).errors && TitleTooShort(0) in Lint(file).errors
  {
    MissingKeyExactlyOnce(file, "title");
    TitleLengthFindings(file);
    OfSectionMembers(Lint(file).errors, TitleChecks, TitleTooShort(0));
  }

  /** A missing description defaults to the empty string and is reported
      empty as well as missing. */
  lemma MissingDescription(file: PostFile)
    requires file.Loaded? && "description" !in file.metadata && TitleLength(file.metadata).Some?
    ensures MissingKey("description") in Lint(file).errors && DescEmpty in Lint(file).errors
  {
    var errors := Lint(file).errors;
    assert DescLength(file.metadata) == Some(0);
    DescLengthFindings(file);
    assert OfSection(errors, DescriptionChecks) == [DescEmpty];
    OfSectionMembers(errors, DescriptionChecks, DescEmpty);
    MissingKeyExactlyOnce(file, "description");
  }

  /** A missing slug defaults to the empty string, which the slug pattern
      rejects. */
  lemma MissingSlug(file: PostFile)
    requires file.Loaded? && "slug" !in file.metadata
    requires TitleLength(file.metadata).Some? && DescLength(file.metadata).Some?
    ensures MissingKey("slug") in Lint(file).errors && SlugInvalid("") in Lint(file).errors
  {
    MissingKeyExactlyOnce(file, "slug");
    SlugCharsetFinding(file);
  }

  /** With every key present, no MISSING KEY is reported. */
  lemma {:induction false} NoneMissing(meta: Metadata, keys: seq<string>)
    requires forall i :: 0 <= i < |keys| ==> !Missing(meta, keys[i])
    ensures MissingKeyErrors(meta, keys) == []
    decreases |keys|
  {
    if keys != [] {
      NoneMissing(meta, keys[..|keys| - 1]);
    }
  }

  /** With every key absent, each one is reported, in order. */
  lemma {:induction false} AllMissing(meta: Metadata, keys: seq<string>)
    requires forall i :: 0 <= i < |keys| ==> Missing(meta, keys[i])
    ensures var errors := MissingKeyErrors(meta, keys);
            && |errors| == |keys|
            && forall i :: 0 <= i < |keys| ==> errors[i] == MissingKey(keys[i])
    decreases |keys|
  {
    if keys != [] {
      AllMissing(meta, keys[..|keys| - 1]);
    }
  }

  /** A file whose frontmatter has no keys at all. */
  lemma EmptyMetadata()
    ensures Lint(Loaded(map[])) == Report(
              [ MissingKey("title"), MissingKey("description"), MissingKey("image"),
                MissingKey("slug"), MissingKey("author"), MissingKey("created_at"),
                TitleTooShort(0), DescEmpty, SlugInvalid("") ],
              [])
  {
    var meta: Metadata := map[];
    EmptyMetadataKeys();
    assert !SlugMatches("");
    assert SlugFindings(meta) == Report([SlugInvalid("")], []);
    assert DescriptionOnward(meta) == Report([DescEmpty, SlugInvalid("")], []);
    assert TitleOnward(meta) == Report([TitleTooShort(0), DescEmpty, SlugInvalid("")], []);
  }

  lemma EmptyMetadataKeys()
    ensures MissingKeyErrors(map[], RequiredKeys)
            == [ MissingKey("title"), MissingKey("description"), MissingKey("image"),
                 MissingKey("slug"), MissingKey("author"), MissingKey("created_at") ]
  {
    AllMissing(map[], RequiredKeys);
  }

  /** A post whose frontmatter meets every rule. */
  const CompliantPost: Metadata := map[
    "title" := Text("Hello, world"),
    "description" := Text("A short walk through the rules that every post must meet."),
    "image" := Text("cover.png"),
    "slug" := Text("post-2"),
    "author" := Text("me"),
    "created_at" := Scalar("2024-01-01", true)]

  lemma CompliantPostPasses()
    ensures Lint(Loaded(CompliantPost)) == Report([], [])
  {
    CompliantPostKeys();
    CompliantPostText();
    CompliantPostSlug();
    assert DescriptionOnward(CompliantPost) == Prefixed([], [], SlugFindings(CompliantPost));
    assert TitleOnward(CompliantPost) == Prefixed([], [], DescriptionOnward(CompliantPost));
  }

  lemma CompliantPostText()
    ensures TitleLength(CompliantPost) == Some(12) && TitleFinding(12) == Clean
    ensures DescLength(CompliantPost) == Some(57) && DescFinding(57) == Clean
  {
    assert CompliantPost["title"] == Text("Hello, world");
    assert CompliantPost["description"] == Text("A short walk through the rules that every post must meet.");
  }

  lemma CompliantPostKeys()
    ensures MissingKeyErrors(CompliantPost, RequiredKeys) == []
  {
    NoneMissing(CompliantPost, RequiredKeys);
  }

  lemma CompliantPostSlug()
    ensures SlugFindings(CompliantPost) == Report([], [])
  {
    SlugAcceptedExamples();
  }

  /** The rules a post must meet to pass without a finding: every required
      key present and truthy, a title of 10 to 60 and a description of 50 to
      160 characters as `len` counts them, and a slug of at most 75
      characters that the slug pattern accepts. */
  predicate Compliant(meta: Metadata) {
    && (forall i :: 0 <= i < |RequiredKeys| ==> !Missing(meta, RequiredKeys[i]))
    && TitleLength(meta).Some? && TitleMin <= TitleLength(meta).value <= TitleOptimalMax
    && DescLength(meta).Some? && DescOptimalMin <= DescLength(meta).value <= DescOptimalMax
    && SlugMatches(SlugText(meta)) && |SlugText(meta)| <= SlugOptimalMax
  }

  /** A readable post gets an empty report exactly when it meets every
      rule. */
  lemma CompliantIffPasses(meta: Metadata)
    ensures Lint(Loaded(meta)) == Report([], []) <==> Compliant(meta)
  {
    if Compliant(meta) {
      CompliantPasses(meta);
    }
    if Lint(Loaded(meta)) == Report([], []) {
      PassesCompliant(meta);
    }
  }

  lemma CompliantPasses(meta: Metadata)
    requires Compliant(meta)
    ensures Lint(Loaded(meta)) == Report([], [])
  {
    NoneMissing(meta, RequiredKeys);
    assert TitleFinding(TitleLength(meta).value) == Clean;
    assert DescFinding(DescLength(meta).value) == Clean;
    assert SlugFindings(meta) == Report([], []);
    assert DescriptionOnward(meta) == Report([], []);
    assert TitleOnward(meta) == Report([], []);
  }

  lemma PassesCompliant(meta: Metadata)
    requires Lint(Loaded(meta)) == Report([], [])
    ensures Compliant(meta)
  {
    var file := Loaded(meta);
    assert !Raises(file) by {
      ReadErrorLast(file);
    }
    assert MissingKeyErrors(meta, RequiredKeys) == [] by {
      MissingKeysFirst(file);
    }
    MissingKeyErrorsEmpty(meta, RequiredKeys);
    assert OfSection([], TitleChecks) == [] && OfSection([], DescriptionChecks) == [] && OfSection([], SlugChecks) == [];
    TitleLengthFindings(file);
    DescLengthFindings(file);
    SlugLengthFindings(file);
  }

  /** No MISSING KEY error means every key is present and truthy. */
  lemma {:induction false} MissingKeyErrorsEmpty(meta: Metadata, keys: seq<string>)
    requires MissingKeyErrors(meta, keys) == []
    ensures forall i :: 0 <= i < |keys| ==> !Missing(meta, keys[i])
    decreases |keys|
  {
    if keys != [] {
      var init := keys[..|keys| - 1];
      MissingKeyErrorsEmpty(meta, init);
      assert forall i :: 0 <= i < |init| ==> keys[i] == init[i];
    }
  }

  // ---------------------------------------------------------------------
  // The slug pattern.

  /** A non-empty run of lower-case letters, digits and hyphens. */
  predicate IsSlugWord(w: string) {
    |w| > 0 && forall i :: 0 <= i < |w| ==> SlugChar(w[i])
  }

  /** `^[a-z0-9-]+$` accepts a slug word, or a slug word followed by one
      newline, and nothing else. */
  lemma SlugPatternShape(s: string)
    ensures SlugMatches(s) <==> IsSlugWord(s) || (|s| >= 2 && s[|s| - 1] == '\n' && IsSlugWord(s[..|s| - 1]))
  {
    var k := LeadingRun(s);
    if IsSlugWord(s) {
      assert k == |s|;
    }
    if |s| >= 2 && s[|s| - 1] == '\n' && IsSlugWord(s[..|s| - 1]) {
      assert k >= |s| - 1;
      assert !SlugChar(s[|s| - 1]);
    }
    if SlugMatches(s) && k == |s| - 1 {
      assert forall i :: 0 <= i < |s| - 1 ==> s[..|s| - 1][i] == s[i];
    }
  }

  /** An upper-case letter or a space anywhere makes the slug invalid. */
  lemma SlugRejectsUpperCaseAndSpace(s: string, i: nat)
    requires i < |s| && ('A' <= s[i] <= 'Z' || s[i] == ' ')
    ensures !SlugMatches(s)
  {
    SlugPatternShape(s);
    if |s| >= 2 && i < |s| - 1 {
      assert s[..|s| - 1][i] == s[i];
    }
  }

  lemma SlugAcceptedExamples()
    ensures SlugMatches("post-2")
    ensures SlugMatches("post-2\n")
  {
    SlugPatternShape("post-2");
    SlugPatternShape("post-2\n");
    assert "post-2\n"[..6] == "post-2";
  }

  lemma SlugRejectedExamples()
    ensures !SlugMatches("")
    ensures !SlugMatches("\n")
    ensures !SlugMatches("post\n\n")
  {
    assert LeadingRun("post\n\n") == 4 by {
      assert "post\n\n"[1..][1..][1..][1..] == "\n\n";
    }
  }
}
