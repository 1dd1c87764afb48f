/**
 * Attachment metadata handed to the archive writer, and the check that no two
 * attachments would land on the same path inside the archive.
 */
module DomainAttachment {
  import opened Wrappers

  const U64_MAX: int := 0xFFFF_FFFF_FFFF_FFFF
  type U64 = x: int | 0 <= x <= U64_MAX

  /** The digest recorded for a file whose hashing failed. */
  const Unavailable: string := "unavailable"

  /** `Attachment`: the file's path on disk, its name inside the archive, MIME type, digest and size. */
  datatype Attachment = Attachment(path: string, sanitizedName: string, mime: string, sha256: string, size: U64)

  /** `Attachment::new`: stores the five values as given. */
  function New(path: string, sanitizedName: string, mime: string, sha256: string, size: U64): (a: Attachment)
    ensures a.path == path && a.sanitizedName == sanitizedName && a.mime == mime
    ensures a.sha256 == sha256 && a.size == size
  {
    Attachment(path, sanitizedName, mime, sha256, size)
  }

  /** The archive names of `atts`, in order. */
  function Names(atts: seq<Attachment>): (s: seq<string>)
    ensures |s| == |atts|
    ensures forall i :: 0 <= i < |atts| ==> s[i] == atts[i].sanitizedName
  {
    seq(|atts|, i requires 0 <= i < |atts| => atts[i].sanitizedName)
  }

  predicate Distinct<T(==)>(s: seq<T>) {
    forall i, j :: 0 <= i < j < |s| ==> s[i] != s[j]
  }

  /**
   * The first position whose value already occurred before it: absent
   * exactly when all values are distinct.
   */
  function FirstRepeat<T(==)>(s: seq<T>): (r: Option<nat>)
    ensures r.None? <==> Distinct(s)
    ensures r.Some? ==> r.value < |s| && s[r.value] in s[..r.value] && Distinct(s[..r.value])
  {
    if s == [] then None
    else
      var front := s[..|s| - 1];
      match FirstRepeat(front)
      case Some(i) =>
        assert front[..i] == s[..i];
        Some(i)
      case None =>
        if s[|s| - 1] in front then Some(|s| - 1) else None
  }

  /** A value that repeats an earlier one, with everything before it distinct, is the first repeat. */
  lemma FirstRepeatAt<T>(s: seq<T>, i: nat)
    requires i < |s| && s[i] in s[..i] && Distinct(s[..i])
    ensures FirstRepeat(s) == Some(i)
  {
    var k :| 0 <= k < i && s[..i][k] == s[i];
    assert s[k] == s[i];
    var r := FirstRepeat(s);
    assert r.Some?;
    forall j | 0 <= j < i ensures s[j] !in s[..j] {
      forall m | 0 <= m < j ensures s[m] != s[j] {
        assert s[..i][m] == s[m] && s[..i][j] == s[j];
      }
    }
    forall j | i < j <= |s| ensures !Distinct(s[..j]) {
      assert s[..j][k] == s[k] && s[..j][i] == s[i];
    }
  }

  function DuplicateMessage(name: string): string {
    "Duplicate attachment filename in archive: " + name
  }

  /**
   * `assert_unique_sanitized_names` as a value: `Ok` exactly when the archive
   * names are pairwise distinct; otherwise the error names the first
   * attachment whose name repeats an earlier one.
   */
  function UniqueNamesCheck(atts: seq<Attachment>): (r: Result<(), string>)
    ensures r.Ok? <==> Distinct(Names(atts))
    ensures r.Err? ==> exists i :: (0 <= i < |atts| && Names(atts)[i] in Names(atts)[..i]
      && Distinct(Names(atts)[..i]) && r.error == DuplicateMessage(atts[i].sanitizedName))
  {
    match FirstRepeat(Names(atts))
    case None => Ok(())
    case Some(i) => Err(DuplicateMessage(atts[i].sanitizedName))
  }

  /** `assert_unique_sanitized_names`: one pass that records every name in a set and stops at the first repeat. */
  method AssertUniqueSanitizedNames(atts: seq<Attachment>) returns (r: Result<(), string>)
    ensures r == UniqueNamesCheck(atts)
  {
    var seen: set<string> := {};
    var i := 0;
    while i < |atts|
      invariant 0 <= i <= |atts|
      invariant seen == set k | 0 <= k < i :: atts[k].sanitizedName
      invariant Distinct(Names(atts)[..i])
    {
      var name := atts[i].sanitizedName;
      if name in seen {
        var k :| 0 <= k < i && atts[k].sanitizedName == name;
        assert Names(atts)[..i][k] == name;
        FirstRepeatAt(Names(atts), i);
        return Err(DuplicateMessage(name));
      }
      assert Names(atts)[..i + 1] == Names(atts)[..i] + [name];
      seen := seen + {name};
      i := i + 1;
    }
    assert Names(atts)[..i] == Names(atts);
    return Ok(());
  }

  /** An empty attachment list is accepted. */
  lemma EmptyAccepted()
    ensures UniqueNamesCheck([]) == Ok(())
  {
  }

  /**
   * Only the archive names take part: lists with the same names get the same
   * verdict, whatever their paths, MIME types, digests and sizes.
   */
  lemma OnlyNamesCompared(a: seq<Attachment>, b: seq<Attachment>)
    requires Names(a) == Names(b)
    ensures UniqueNamesCheck(a).Ok? <==> UniqueNamesCheck(b).Ok?
    ensures UniqueNamesCheck(a).Err? ==> UniqueNamesCheck(a) == UniqueNamesCheck(b)
  {
    match FirstRepeat(Names(a))
    case None =>
    case Some(i) =>
      assert a[i].sanitizedName == Names(a)[i] == b[i].sanitizedName;
  }

  /** Two files with the same name are rejected with that name, even when everything else differs. */
  lemma SameNameRejected(x: Attachment, y: Attachment)
    requires x.sanitizedName == y.sanitizedName
    ensures UniqueNamesCheck([x, y]) == Err(DuplicateMessage(x.sanitizedName))
  {
    assert Names([x, y])[..1] == [x.sanitizedName];
    FirstRepeatAt(Names([x, y]), 1);
  }
}
