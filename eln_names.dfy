/**
 * Naming rules of the `.eln` exporter: the archive name suggested for an
 * entry title, the rule that forces an output path onto a given extension,
 * and the RO-Crate genre tokens.
 */
module ElnNames {
  import opened Wrappers
  import opened Text
  import opened Paths
  import opened Sanitize

  const ELN_EXTENSION: string := "eln"

  /** The base used when the lowercased, sanitized title is empty. */
  const ARCHIVE_FALLBACK: string := "eln_entry"

  // ---------------------------------------------------------------------------
  // Suggested archive name

  /** The archive name built from a sanitized title: ASCII-lowercased, the fallback when empty, then `.eln`. */
  function ArchiveNameOf(sanitized: string): (r: string)
  {
    var base := AsciiLower(sanitized);
    var finalBase := if base == [] then ARCHIVE_FALLBACK else base;
    finalBase + "." + ELN_EXTENSION
  }

  /** `suggested_archive_name`. */
  function SuggestedArchiveName(title: string): (r: string)
  {
    ArchiveNameOf(Sanitized(title))
  }

  predicate NoAsciiUpper(s: string) {
    forall i :: 0 <= i < |s| ==> !IsAsciiUpper(s[i])
  }

  /** What the sanitizer promises about its output, as far as naming needs it. */
  predicate SanitizedLike(s: string) {
    s != [] && AllAllowed(s)
  }

  lemma SanitizedIsSanitizedLike(title: string)
    ensures SanitizedLike(Sanitized(title))
  {
    SanitizedShape(title);
    SanitizedAllowed(title);
  }

  lemma ArchiveNameShape(s: string)
    requires SanitizedLike(s)
    ensures ArchiveNameOf(s) == AsciiLower(s) + ".eln"
    ensures AllAllowed(ArchiveNameOf(s)) && NoAsciiUpper(ArchiveNameOf(s))
    ensures FileName(ArchiveNameOf(s)) == Some(ArchiveNameOf(s))
    ensures Extension(ArchiveNameOf(s)) == Some(ELN_EXTENSION)
    ensures FileStem(ArchiveNameOf(s)) == Some(AsciiLower(s))
  {
    var stem := AsciiLower(s);
    var r := stem + "." + ELN_EXTENSION;
    assert r == stem + ".eln";
    forall i | 0 <= i < |r| ensures IsAllowed(r[i]) && !IsAsciiUpper(r[i]) && r[i] != '/' {
      if i < |stem| {
        assert r[i] == AsciiLowerChar(s[i]);
      }
    }
    assert '/' !in stem;
    assert [] + (stem + "." + ELN_EXTENSION) == r;
    JoinedPathParts([], stem, ELN_EXTENSION);
  }

  /** The suggested name is the lowercased sanitizer output plus `.eln`: the fallback never applies. */
  lemma SuggestedNameIsLoweredSanitized(title: string)
    ensures SuggestedArchiveName(title) == AsciiLower(Sanitized(title)) + ".eln"
  {
    SanitizedIsSanitizedLike(title);
    ArchiveNameShape(Sanitized(title));
  }

  /** The suggested name is a safe file name: sanitizer characters only, no ASCII capitals. */
  lemma SuggestedNameCharacters(title: string)
    ensures AllAllowed(SuggestedArchiveName(title))
    ensures NoAsciiUpper(SuggestedArchiveName(title))
  {
    SanitizedIsSanitizedLike(title);
    ArchiveNameShape(Sanitized(title));
  }

  /** Read as a path, the suggested name is its own file name, with extension `eln` and the lowered title as stem. */
  lemma SuggestedNameAsPath(title: string)
    ensures FileName(SuggestedArchiveName(title)) == Some(SuggestedArchiveName(title))
    ensures Extension(SuggestedArchiveName(title)) == Some(ELN_EXTENSION)
    ensures FileStem(SuggestedArchiveName(title)) == Some(AsciiLower(Sanitized(title)))
  {
    SanitizedIsSanitizedLike(title);
    ArchiveNameShape(Sanitized(title));
  }

  /** Forcing the `.eln` extension onto a suggested name changes nothing. */
  lemma SuggestedNameKeepsExtension(title: string)
    ensures EnsureExtension(SuggestedArchiveName(title), ELN_EXTENSION) == SuggestedArchiveName(title)
  {
    SanitizedIsSanitizedLike(title);
    ArchiveNameShape(Sanitized(title));
  }

  // The title of the exporter's own test: `Å` and `ö` are transliterated and
  // the spaces become `_`.  Each step is stated on variables so that the
  // literals are only looked at where a step needs them.

  lemma TransliterateOne(x: string, c: char)
    requires x == [c]
    ensures Transliterate(x) == TransliterateChar(c)
  {
    assert x[..|x| - 1] == [];
    assert FlatMapChars(TransliterateChar, x) == FlatMapChars(TransliterateChar, []) + TransliterateChar(c);
  }

  lemma TransliterateStudyTitle(title: string, a: string, b: string, c: string, d: string, t: string)
    requires a == "\U{00C5}" && b == "ngstr" && c == "\U{00F6}" && d == "m Study v1"
    requires title == a + b + c + d && t == "A" + b + "o" + d
    ensures Transliterate(title) == t
  {
    TransliterateOne(a, '\U{00C5}');
    TransliterateOne(c, '\U{00F6}');
    TransliterateAscii(b);
    TransliterateAscii(d);
    TransliterateConcat(a, b);
    TransliterateConcat(a + b, c);
    TransliterateConcat(a + b + c, d);
  }

  /** A clean word after text that collapsed to something ending in a letter or digit, joined by a space. */
  lemma CollapseSpaceJoin(x: string, cx: string, w: string)
    requires Collapse(x) == cx && cx != [] && IsAsciiAlphanumeric(cx[|cx| - 1])
    requires w != [] && AllAllowed(w) && NoRuns(w) && IsAsciiAlphanumeric(w[0])
    ensures Collapse(x + " " + w) == cx + "_" + w
  {
    CollapseStep(x, ' ');
    assert x + [' '] == x + " ";
    assert Collapse(x + " ") == cx + "_";
    CollapseClean(w);
    CollapseJoin(x + " ", w, cx + "_", w);
  }

  /** A clean word is its own collapse. */
  lemma CollapseWord(w: string)
    requires AllAllowed(w) && NoRuns(w)
    ensures Collapse(w) == w
  {
    CollapseClean(w);
  }

  lemma AlphanumericWord(w: string)
    requires w == "Angstrom" || w == "Study" || w == "v1"
    ensures w != [] && AllAllowed(w) && NoRuns(w) && IsAsciiAlphanumeric(w[0]) && IsAsciiAlphanumeric(w[|w| - 1])
  {
  }

  lemma CollapseStudyTitle(t: string, w1: string, w2: string, w3: string)
    requires w1 == "Angstrom" && w2 == "Study" && w3 == "v1" && t == w1 + " " + w2 + " " + w3
    ensures Collapse(t) == w1 + "_" + w2 + "_" + w3
  {
    AlphanumericWord(w1);
    AlphanumericWord(w2);
    AlphanumericWord(w3);
    CollapseWord(w1);
    CollapseSpaceJoin(w1, w1, w2);
    var c2 := w1 + "_" + w2;
    assert c2[|c2| - 1] == w2[|w2| - 1];
    CollapseSpaceJoin(w1 + " " + w2, c2, w3);
  }

  /** A long name without dots, ending in a letter or digit, passes the last stages unchanged. */
  lemma FinishPlainName(s: string)
    requires '.' !in s && |s| > 4 && IsAsciiAlphanumeric(s[|s| - 1])
    ensures StripUnderscoreDots(s) == s && TrimTrailingDots(s) == s && Finish(s) == s
  {
    StripNothing(s);
    TrimPlainName(s);
    FinishOfPlainName(s);
  }

  lemma TrimPlainName(s: string)
    requires s != [] && IsAsciiAlphanumeric(s[|s| - 1])
    ensures TrimTrailingDots(s) == s
  {
  }

  lemma FinishOfPlainName(s: string)
    requires '.' !in s && |s| > 4
    ensures Finish(s) == s
  {
    SplitBasePlain(s);
    LongNamesNotReserved(s);
    assert s != [] && s != "." && s != ".." by {
      assert |"."| == 1 && |".."| == 2;
    }
  }

  lemma SplitBasePlain(s: string)
    requires '.' !in s
    ensures SplitBase(s) == NameParts(s, None)
  {
  }

  lemma StudyTitleClean(c: string)
    requires c == "Angstrom" + "_" + "Study" + "_" + "v1"
    ensures '.' !in c && |c| > 4 && IsAsciiAlphanumeric(c[|c| - 1])
    ensures AsciiLower(c) == "angstrom_study_v1"
  {
  }

  lemma StudyTitleSanitized(title: string, a: string, b: string, c: string, d: string,
                            w1: string, w2: string, w3: string)
    requires a == "\U{00C5}" && b == "ngstr" && c == "\U{00F6}" && d == "m Study v1"
    requires w1 == "Angstrom" && w2 == "Study" && w3 == "v1"
    requires title == a + b + c + d
    ensures Sanitized(title) == w1 + "_" + w2 + "_" + w3
  {
    var t := "A" + b + "o" + d;
    TransliterateStudyTitle(title, a, b, c, d, t);
    assert t == w1 + " " + w2 + " " + w3;
    CollapseStudyTitle(t, w1, w2, w3);
    var cleaned := w1 + "_" + w2 + "_" + w3;
    StudyTitleClean(cleaned);
    FinishPlainName(cleaned);
    SanitizedStages(title, t, cleaned, cleaned, cleaned, cleaned);
  }

  lemma StudyTitleSplits(title: string)
    requires title == "\U{00C5}ngstr\U{00F6}m Study v1"
    ensures title == "\U{00C5}" + "ngstr" + "\U{00F6}" + "m Study v1"
  {
  }

  /** `"Ångström Study v1"` is suggested as `"angstrom_study_v1.eln"`. */
  lemma ExampleStudyTitle(title: string)
    requires title == "\U{00C5}ngstr\U{00F6}m Study v1"
    ensures SuggestedArchiveName(title) == "angstrom_study_v1.eln"
  {
    StudyTitleSplits(title);
    StudyTitleSanitized(title, "\U{00C5}", "ngstr", "\U{00F6}", "m Study v1", "Angstrom", "Study", "v1");
    StudyTitleLowered(Sanitized(title));
  }

  lemma StudyTitleLowered(s: string)
    requires s == "Angstrom" + "_" + "Study" + "_" + "v1"
    ensures ArchiveNameOf(s) == "angstrom_study_v1.eln"
  {
    StudyTitleClean(s);
    assert SanitizedLike(s);
    ArchiveNameShape(s);
    StudyNameJoined(AsciiLower(s), ".eln");
  }

  lemma StudyNameJoined(x: string, y: string)
    requires x == "angstrom_study_v1" && y == ".eln"
    ensures x + y == "angstrom_study_v1.eln"
  {
  }

  // ---------------------------------------------------------------------------
  // Forcing an extension

  /** Whether the path already carries `ext`, compared ignoring ASCII case. */
  predicate HasExtensionIgnoringCase(path: Path, ext: string) {
    Extension(path).Some? && EqIgnoreAsciiCase(Extension(path).value, ext)
  }

  /** `ensure_extension`: keep a matching extension (ignoring ASCII case), otherwise `set_extension`. */
  function EnsureExtension(path: Path, ext: string): (r: Path)
    ensures HasExtensionIgnoringCase(path, ext) ==> r == path
  {
    var replace := !HasExtensionIgnoringCase(path, ext);
    if replace then SetExtension(path, ext) else path
  }

  /** A plain extension (non-empty, without `.` or `/`). */
  predicate PlainExtension(ext: string) {
    ext != [] && '.' !in ext && '/' !in ext
  }

  /**
   * After forcing, a path with a file name carries the extension: either the
   * one it had, equal to `ext` ignoring case, or exactly `ext`.  The stem is
   * never touched.
   */
  lemma EnsureExtensionResult(path: Path, ext: string)
    requires FileName(path).Some? && PlainExtension(ext)
    ensures HasExtensionIgnoringCase(EnsureExtension(path, ext), ext)
    ensures !HasExtensionIgnoringCase(path, ext) ==> Extension(EnsureExtension(path, ext)) == Some(ext)
    ensures FileStem(EnsureExtension(path, ext)) == FileStem(path)
  {
    if !HasExtensionIgnoringCase(path, ext) {
      SetExtensionHasExtension(path, ext);
    }
  }

  /** A path without a file name (empty, a root, `.` or `..`) is left as it is. */
  lemma EnsureExtensionWithoutFileName(path: Path, ext: string)
    requires FileName(path).None?
    ensures EnsureExtension(path, ext) == path
  {
  }

  /** Forcing twice is forcing once. */
  lemma EnsureExtensionIdempotent(path: Path, ext: string)
    requires PlainExtension(ext)
    ensures EnsureExtension(EnsureExtension(path, ext), ext) == EnsureExtension(path, ext)
  {
    if FileName(path).Some? {
      EnsureExtensionResult(path, ext);
    }
  }

  /** An upper-case `.ELN` already counts as the `eln` extension. */
  lemma ExampleKeepsUppercaseExtension(p: Path, d: string, stem: string, ext: string, eln: string)
    requires d == "/tmp/" && stem == "report" && ext == "ELN" && eln == ELN_EXTENSION
    requires p == d + (stem + "." + ext)
    ensures EnsureExtension(p, eln) == p
  {
    ExamplePathParts(p, d, stem, ext);
    ExampleSameExtension(ext, eln);
  }

  /** A different extension is replaced by `eln`. */
  lemma ExampleReplacesExtension(p: Path, stem: string, ext: string, eln: string)
    requires stem == "report" && ext == "txt" && eln == ELN_EXTENSION && p == [] + (stem + "." + ext)
    ensures Extension(EnsureExtension(p, eln)) == Some(eln)
  {
    ExamplePathParts(p, [], stem, ext);
    ExampleOtherExtension(ext, eln);
    ExamplePlainExtension(eln);
    EnsureExtensionResult(p, eln);
  }

  lemma ExamplePathParts(p: Path, d: string, stem: string, ext: string)
    requires d == "/tmp/" || d == []
    requires stem == "report" && (ext == "txt" || ext == "ELN") && p == d + (stem + "." + ext)
    ensures FileName(p).Some? && Extension(p) == Some(ext)
  {
    JoinedPathParts(d, stem, ext);
  }

  lemma ExampleSameExtension(ext: string, eln: string)
    requires ext == "ELN" && eln == ELN_EXTENSION
    ensures EqIgnoreAsciiCase(ext, eln)
  {
  }

  lemma ExampleOtherExtension(ext: string, eln: string)
    requires ext == "txt" && eln == ELN_EXTENSION
    ensures !EqIgnoreAsciiCase(ext, eln)
  {
    assert AsciiLowerChar(ext[0]) != AsciiLowerChar(eln[0]);
    assert AsciiLower(ext)[0] != AsciiLower(eln)[0];
  }

  lemma ExamplePlainExtension(eln: string)
    requires eln == ELN_EXTENSION
    ensures PlainExtension(eln)
  {
    forall i | 0 <= i < |eln| ensures eln[i] != '.' && eln[i] != '/' {
      assert IsAsciiLower(eln[i]);
    }
  }

  // ---------------------------------------------------------------------------
  // Genre

  /** `ArchiveGenre`. */
  datatype Genre = Experiment | Resource

  /** `ArchiveGenre::as_str`: the token written as the crate's `genre`. */
  function GenreToken(g: Genre): (s: string)
    ensures s == "experiment" || s == "resource"
    ensures g.Experiment? <==> s == "experiment"
  {
    match g
    case Experiment => "experiment"
    case Resource => "resource"
  }

  /** Distinct genres have distinct tokens. */
  lemma GenreTokenInjective(g: Genre, h: Genre)
    ensures GenreToken(g) == GenreToken(h) ==> g == h
  {
  }
}
