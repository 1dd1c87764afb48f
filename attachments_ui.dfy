/**
 * The attachments panel: the selected files with their archive names, the
 * set of content digests already taken, the thumbnail caches and in-place
 * renaming of one attachment.  `Step` is the reducer as a value; the class
 * `AttachmentsModel` performs it on its fields.
 *
 * `AttachmentItem` holds the same five values as the domain `Attachment`,
 * so the model uses that datatype for both and `to_domain` is the identity.
 */
module AttachmentsUi {
  import opened Wrappers
  import opened Text
  import opened Paths
  import opened Sanitize
  import opened DomainAttachment

  /** A texture handle of the UI toolkit, kept opaque. */
  type Texture = nat

  /** `AttachmentsMsg`. */
  datatype Msg =
    | RequestPickFiles
    | FilesPicked(paths: seq<Path>)
    | LoadThumbnail(path: Path)
    | HashComputed(path: Path, sha256: string, size: U64, mime: string)
    | ThumbnailReady(path: Path, texture: Texture)
    | ThumbnailFailed(path: Path)
    | Remove(index: nat)
    | StartEdit(index: nat)
    | EditInputChanged(text: string)
    | CommitEdit
    | CancelEdit

  /** `AttachmentsCommand`: work handed to the command runner. */
  datatype Command = PickFiles | HashFile(path: Path) | LoadThumbnailCmd(path: Path)

  /** `AttachmentsEvent`. */
  datatype Event = Event(message: string, isError: bool)

  /** The fields of `AttachmentsModel`. */
  datatype State = State(
    attachments: seq<Attachment>,
    thumbnailCache: map<Path, Texture>,
    thumbnailFailures: set<Path>,
    hashes: set<string>,
    editingIndex: Option<nat>,
    editingBuffer: string)

  /** `AttachmentsModel::default()`. */
  const Initial: State := State([], map[], {}, {}, None, "")

  const Processing: string := "Processing attachments..."
  const Added: string := "Attachment added"
  const Skipped: string := "Attachment skipped (duplicate or invalid)"
  const Removed: string := "Attachment removed"
  const EmptyFilename: string := "Filename cannot be empty."
  const InvalidFilename: string := "Filename is invalid after sanitization."
  const FilenameInUse: string := "Another attachment already uses this filename in the archive."
  const FilenameUpdated: string := "Attachment filename updated."

  // ---------------------------------------------------------------------------
  // What the panel keeps true

  /** The digests of the attachments whose hashing succeeded. */
  function Digests(atts: seq<Attachment>): set<string>
  {
    set i | 0 <= i < |atts| && atts[i].sha256 != Unavailable :: atts[i].sha256
  }

  /** No two attachments share a digest, apart from `"unavailable"`. */
  predicate DigestsDistinct(atts: seq<Attachment>)
  {
    forall i, j :: 0 <= i < j < |atts| && atts[i].sha256 != Unavailable ==> atts[i].sha256 != atts[j].sha256
  }

  /**
   * The panel's invariant: archive names are pairwise distinct, no content
   * digest is shared, and `hashes` is exactly the set of known digests.
   */
  predicate Valid(s: State)
  {
    Distinct(Names(s.attachments)) && DigestsDistinct(s.attachments) && s.hashes == Digests(s.attachments)
  }

  // ---------------------------------------------------------------------------
  // Adding a hashed file

  /** The name a new file is taken under: its file name, or `attachment-<n+1>` when it has none. */
  function OriginalName(path: Path, count: nat): (r: string)
    ensures FileName(path).Some? ==> r == FileName(path).value
  {
    match FileName(path)
    case Some(name) => name
    case None => "attachment-" + NatToString(count + 1)
  }

  /**
   * `add_attachment_with_meta` as a value: the file is refused when its
   * sanitized name is already used or its known digest is already held;
   * otherwise it is appended and its digest, unless `"unavailable"`,
   * recorded.
   */
  function AddedWithMeta(s: State, path: Path, sha256: string, size: U64, mime: string): (r: (State, bool))
  {
    var name := Sanitized(OriginalName(path, |s.attachments|));
    if name in Names(s.attachments) then (s, false)
    else if sha256 != Unavailable && sha256 in s.hashes then (s, false)
    else
      var hashes := if sha256 != Unavailable then s.hashes + {sha256} else s.hashes;
      (s.(attachments := s.attachments + [Attachment(path, name, mime, sha256, size)], hashes := hashes), true)
  }

  // ---------------------------------------------------------------------------
  // Removing and renaming

  /**
   * `remove_attachment` as a value: an index in range drops the attachment,
   * its cache entries and its digest; any other index changes nothing.
   */
  function RemovedAt(s: State, index: nat): (r: State)
  {
    if index < |s.attachments| then
      var removed := s.attachments[index];
      s.(thumbnailCache := s.thumbnailCache - {removed.path},
         thumbnailFailures := s.thumbnailFailures - {removed.path},
         hashes := if removed.sha256 != Unavailable then s.hashes - {removed.sha256} else s.hashes,
         attachments := s.attachments[..index] + s.attachments[index + 1..])
    else s
  }

  /** An attachment other than the one at `index` is stored under `name`. */
  predicate OtherUses(atts: seq<Attachment>, index: nat, name: string)
  {
    exists i :: 0 <= i < |atts| && i != index && atts[i].sanitizedName == name
  }

  /**
   * `commit_filename_edit` as a value: nothing happens without an edited
   * index; a blank buffer, an empty sanitized name or a name used by
   * another attachment is refused with an error and no change; otherwise
   * the sanitized buffer becomes the attachment's name (when the index is in
   * range) and editing ends.
   */
  function CommittedFilenameEdit(s: State): (r: (State, Option<Event>))
  {
    match s.editingIndex
    case None => (s, None)
    case Some(index) =>
      var raw := Trim(s.editingBuffer);
      if raw == [] then (s, Some(Event(EmptyFilename, true)))
      else
        var name := Sanitized(raw);
        if name == [] then (s, Some(Event(InvalidFilename, true)))
        else if OtherUses(s.attachments, index, name) then (s, Some(Event(FilenameInUse, true)))
        else
          var atts := if index < |s.attachments| then s.attachments[index := s.attachments[index].(sanitizedName := name)]
            else s.attachments;
          (s.(attachments := atts, editingIndex := None, editingBuffer := ""), Some(Event(FilenameUpdated, false)))
  }

  // ---------------------------------------------------------------------------
  // The reducer

  /** One `HashFile` command per picked path, in order. */
  function HashCommands(paths: seq<Path>): (cmds: seq<Command>)
    ensures |cmds| == |paths| && forall k :: 0 <= k < |paths| ==> cmds[k] == HashFile(paths[k])
  {
    seq(|paths|, k requires 0 <= k < |paths| => HashFile(paths[k]))
  }

  /** `update` as a value: the new state, the commands pushed, and the feedback event. */
  function Step(s: State, msg: Msg): (r: (State, seq<Command>, Option<Event>))
  {
    match msg
    case RequestPickFiles => (s, [PickFiles], None)
    case FilesPicked(paths) => (s, HashCommands(paths), Some(Event(Processing, false)))
    case LoadThumbnail(path) => (s, [LoadThumbnailCmd(path)], None)
    case HashComputed(path, sha256, size, mime) =>
      var (s', added) := AddedWithMeta(s, path, sha256, size, mime);
      (s', [], Some(Event(if added then Added else Skipped, !added)))
    case ThumbnailReady(path, texture) => (s.(thumbnailCache := s.thumbnailCache[path := texture]), [], None)
    case ThumbnailFailed(path) => (s.(thumbnailFailures := s.thumbnailFailures + {path}), [], None)
    case Remove(index) => (RemovedAt(s, index), [], Some(Event(Removed, false)))
    case StartEdit(index) =>
      var buffer := if index < |s.attachments| then s.attachments[index].sanitizedName else "";
      (s.(editingIndex := Some(index), editingBuffer := buffer), [], None)
    case EditInputChanged(text) => (s.(editingBuffer := text), [], None)
    case CommitEdit =>
      var (s', ev) := CommittedFilenameEdit(s);
      (s', [], ev)
    case CancelEdit => (s.(editingIndex := None, editingBuffer := ""), [], None)
  }

  /** The state after a sequence of messages. */
  function Run(s: State, msgs: seq<Msg>): State
  {
    if msgs == [] then s else Step(Run(s, msgs[..|msgs| - 1]), msgs[|msgs| - 1]).0
  }

  // ---------------------------------------------------------------------------
  // Images

  const ImageExtensions: seq<string> := ["png", "jpg", "jpeg", "bmp", "tiff", "tif", "gif", "webp", "svg"]

  /** `is_image`: the extension, lowercased, is a supported raster or SVG format. */
  function IsImage(path: Path): bool
  {
    match Extension(path)
    case None => false
    case Some(ext) => AsciiLower(ext) in ImageExtensions
  }

  /**
   * Giving a file an extension decides whether it is an image, ignoring
   * ASCII case: `photo.PNG` and `diagram.svg` are images, `notes.txt` is not.
   */
  lemma IsImageByExtension(p: Path, ext: string)
    requires FileName(p).Some?
    requires ext != [] && '.' !in ext && '/' !in ext
    ensures IsImage(SetExtension(p, ext)) <==> AsciiLower(ext) in ImageExtensions
  {
    SetExtensionHasExtension(p, ext);
  }

  /** A path without an extension is never an image. */
  lemma NoExtensionNoImage(p: Path)
    requires Extension(p).None?
    ensures !IsImage(p)
  {
  }

  // ---------------------------------------------------------------------------
  // Properties of adding

  /** A file whose sanitized name is taken is refused and nothing changes, whatever its contents. */
  lemma AddRejectsTakenName(s: State, path: Path, sha256: string, size: U64, mime: string)
    requires Sanitized(OriginalName(path, |s.attachments|)) in Names(s.attachments)
    ensures AddedWithMeta(s, path, sha256, size, mime) == (s, false)
  {
  }

  /** A file whose known digest is already held is refused and nothing changes, whatever its name. */
  lemma AddRejectsKnownDigest(s: State, path: Path, sha256: string, size: U64, mime: string)
    requires sha256 != Unavailable && sha256 in s.hashes
    ensures AddedWithMeta(s, path, sha256, size, mime) == (s, false)
  {
  }

  /**
   * `"unavailable"` never blocks a file and is never recorded: such a file
   * is added exactly when its name is free, and `hashes` stays as it was.
   */
  lemma UnavailableNeverBlocks(s: State, path: Path, size: U64, mime: string)
    ensures var (s', added) := AddedWithMeta(s, path, Unavailable, size, mime);
      s'.hashes == s.hashes
      && (added <==> Sanitized(OriginalName(path, |s.attachments|)) !in Names(s.attachments))
  {
  }

  /**
   * An accepted file is appended as exactly one item at the end, named by
   * the sanitized file name; the rest of the state keeps its values.
   */
  lemma AddAppendsOne(s: State, path: Path, sha256: string, size: U64, mime: string)
    requires AddedWithMeta(s, path, sha256, size, mime).1
    ensures var s' := AddedWithMeta(s, path, sha256, size, mime).0;
      var name := Sanitized(OriginalName(path, |s.attachments|));
      s'.attachments == s.attachments + [Attachment(path, name, mime, sha256, size)]
      && name !in Names(s.attachments)
      && s'.hashes == (if sha256 == Unavailable then s.hashes else s.hashes + {sha256})
      && s'.thumbnailCache == s.thumbnailCache && s'.thumbnailFailures == s.thumbnailFailures
      && s'.editingIndex == s.editingIndex && s'.editingBuffer == s.editingBuffer
  {
  }

  /** A refused file leaves the whole state unchanged. */
  lemma AddRefusedUnchanged(s: State, path: Path, sha256: string, size: U64, mime: string)
    requires !AddedWithMeta(s, path, sha256, size, mime).1
    ensures AddedWithMeta(s, path, sha256, size, mime).0 == s
  {
  }

  lemma DigestsSnoc(atts: seq<Attachment>, a: Attachment)
    ensures Digests(atts + [a]) == Digests(atts) + (if a.sha256 != Unavailable then {a.sha256} else {})
  {
    var t := atts + [a];
    forall x | x in Digests(t) ensures x in Digests(atts) + (if a.sha256 != Unavailable then {a.sha256} else {}) {
      var i :| 0 <= i < |t| && t[i].sha256 != Unavailable && t[i].sha256 == x;
      if i < |atts| {
        assert atts[i] == t[i];
      }
    }
    forall x | x in Digests(atts) ensures x in Digests(t) {
      var i :| 0 <= i < |atts| && atts[i].sha256 != Unavailable && atts[i].sha256 == x;
      assert t[i] == atts[i];
    }
    if a.sha256 != Unavailable {
      assert t[|atts|] == a;
    }
  }

  lemma NamesSnoc(atts: seq<Attachment>, a: Attachment)
    ensures Names(atts + [a]) == Names(atts) + [a.sanitizedName]
  {
  }

  /** Adding keeps the invariant. */
  lemma AddValid(s: State, path: Path, sha256: string, size: U64, mime: string)
    requires Valid(s)
    ensures Valid(AddedWithMeta(s, path, sha256, size, mime).0)
  {
    var name := Sanitized(OriginalName(path, |s.attachments|));
    if name !in Names(s.attachments) && !(sha256 != Unavailable && sha256 in s.hashes) {
      var a := Attachment(path, name, mime, sha256, size);
      var t := s.attachments + [a];
      DigestsSnoc(s.attachments, a);
      NamesSnoc(s.attachments, a);
      forall i, j | 0 <= i < j < |t| && t[i].sha256 != Unavailable ensures t[i].sha256 != t[j].sha256 {
        assert t[i] == s.attachments[i];
        if j == |s.attachments| {
          assert t[i].sha256 in Digests(s.attachments);
        } else {
          assert t[j] == s.attachments[j];
        }
      }
      forall i, j | 0 <= i < j < |t| ensures Names(t)[i] != Names(t)[j] {
        assert Names(t)[i] == Names(s.attachments)[i];
        if j < |s.attachments| {
          assert Names(t)[j] == Names(s.attachments)[j];
        }
      }
    }
  }

  // ---------------------------------------------------------------------------
  // Properties of removing

  /** An index out of range changes nothing. */
  lemma RemoveOutOfRange(s: State, index: nat)
    requires index >= |s.attachments|
    ensures RemovedAt(s, index) == s
  {
  }

  /** An index in range drops exactly that attachment and keeps the others in order. */
  lemma RemoveDropsOne(s: State, index: nat)
    requires index < |s.attachments|
    ensures var s' := RemovedAt(s, index);
      |s'.attachments| == |s.attachments| - 1
      && (forall k :: 0 <= k < index ==> s'.attachments[k] == s.attachments[k])
      && (forall k :: index <= k < |s'.attachments| ==> s'.attachments[k] == s.attachments[k + 1])
      && s.attachments[index].path !in s'.thumbnailCache
      && s.attachments[index].path !in s'.thumbnailFailures
      && s'.editingIndex == s.editingIndex && s'.editingBuffer == s.editingBuffer
  {
  }

  lemma DigestsRemove(atts: seq<Attachment>, index: nat)
    requires index < |atts| && DigestsDistinct(atts)
    ensures var d := atts[index].sha256;
      Digests(atts[..index] + atts[index + 1..])
        == (if d != Unavailable then Digests(atts) - {d} else Digests(atts))
  {
    var d := atts[index].sha256;
    var t := atts[..index] + atts[index + 1..];
    assert forall k :: 0 <= k < |t| ==> t[k] == atts[if k < index then k else k + 1];
    forall x | x in Digests(t) ensures x in Digests(atts) && x != d {
      var k :| 0 <= k < |t| && t[k].sha256 != Unavailable && t[k].sha256 == x;
      var m := if k < index then k else k + 1;
      assert atts[m].sha256 == x;
      if m < index {
        assert atts[m].sha256 != atts[index].sha256;
      } else {
        assert d != Unavailable ==> atts[index].sha256 != atts[m].sha256;
      }
    }
    forall x | x in Digests(atts) && x != d ensures x in Digests(t) {
      var m :| 0 <= m < |atts| && atts[m].sha256 != Unavailable && atts[m].sha256 == x;
      assert m != index;
      var k := if m < index then m else m - 1;
      assert t[k] == atts[m];
    }
  }

  /** Removing keeps the invariant. */
  lemma RemoveValid(s: State, index: nat)
    requires Valid(s)
    ensures Valid(RemovedAt(s, index))
  {
    if index < |s.attachments| {
      var atts := s.attachments;
      var t := atts[..index] + atts[index + 1..];
      DigestsRemove(atts, index);
      assert forall k :: 0 <= k < |t| ==> t[k] == atts[if k < index then k else k + 1];
      forall i, j | 0 <= i < j < |t| ensures Names(t)[i] != Names(t)[j] {
        var a, b := if i < index then i else i + 1, if j < index then j else j + 1;
        assert Names(t)[i] == Names(atts)[a] && Names(t)[j] == Names(atts)[b];
      }
      forall i, j | 0 <= i < j < |t| && t[i].sha256 != Unavailable ensures t[i].sha256 != t[j].sha256 {
        var a, b := if i < index then i else i + 1, if j < index then j else j + 1;
        assert t[i] == atts[a] && t[j] == atts[b];
      }
    }
  }

  // ---------------------------------------------------------------------------
  // Properties of renaming

  /** A blank buffer is refused with `"Filename cannot be empty."` and changes nothing. */
  lemma CommitBlankRefused(s: State)
    requires s.editingIndex.Some? && AllWhitespace(s.editingBuffer)
    ensures CommittedFilenameEdit(s) == (s, Some(Event(EmptyFilename, true)))
  {
    TrimEmptyIffBlank(s.editingBuffer);
  }

  /** A sanitized name another attachment already uses is refused and changes nothing. */
  lemma CommitInUseRefused(s: State)
    requires s.editingIndex.Some? && !AllWhitespace(s.editingBuffer)
    requires OtherUses(s.attachments, s.editingIndex.value, Sanitized(Trim(s.editingBuffer)))
    ensures CommittedFilenameEdit(s) == (s, Some(Event(FilenameInUse, true)))
  {
    TrimEmptyIffBlank(s.editingBuffer);
    SanitizedShape(Trim(s.editingBuffer));
  }

  /** The sanitizer never yields an empty name, so the "invalid after sanitization" error never occurs. */
  lemma InvalidAfterSanitizationNeverReported(s: State)
    ensures CommittedFilenameEdit(s).1 != Some(Event(InvalidFilename, true))
  {
    if s.editingIndex.Some? && Trim(s.editingBuffer) != [] {
      SanitizedShape(Trim(s.editingBuffer));
    }
  }

  /** Without an edited index, committing does nothing. */
  lemma CommitWithoutEditIgnored(s: State)
    requires s.editingIndex.None?
    ensures CommittedFilenameEdit(s) == (s, None)
  {
  }

  /**
   * An accepted rename changes only the edited attachment's name, to the
   * sanitized buffer, and ends editing; digests and caches are untouched.
   */
  lemma CommitAccepted(s: State)
    requires s.editingIndex.Some? && s.editingIndex.value < |s.attachments| && !AllWhitespace(s.editingBuffer)
    requires !OtherUses(s.attachments, s.editingIndex.value, Sanitized(Trim(s.editingBuffer)))
    ensures var (s', ev) := CommittedFilenameEdit(s);
      var i := s.editingIndex.value;
      ev == Some(Event(FilenameUpdated, false))
      && |s'.attachments| == |s.attachments|
      && s'.attachments[i] == s.attachments[i].(sanitizedName := Sanitized(Trim(s.editingBuffer)))
      && (forall k :: 0 <= k < |s.attachments| && k != i ==> s'.attachments[k] == s.attachments[k])
      && s'.editingIndex.None? && s'.editingBuffer == ""
      && s'.hashes == s.hashes && s'.thumbnailCache == s.thumbnailCache
  {
    TrimEmptyIffBlank(s.editingBuffer);
    SanitizedShape(Trim(s.editingBuffer));
  }

  /** Renaming keeps the invariant. */
  lemma CommitValid(s: State)
    requires Valid(s)
    ensures Valid(CommittedFilenameEdit(s).0)
  {
    if s.editingIndex.Some? {
      var index, raw := s.editingIndex.value, Trim(s.editingBuffer);
      if raw != [] && index < |s.attachments| {
        var name := Sanitized(raw);
        if name != [] && !OtherUses(s.attachments, index, name) {
          var atts := s.attachments;
          var t := atts[index := atts[index].(sanitizedName := name)];
          assert forall k :: 0 <= k < |t| ==> t[k].sha256 == atts[k].sha256;
          assert Digests(t) == Digests(atts);
          forall i, j | 0 <= i < j < |t| ensures Names(t)[i] != Names(t)[j] {
            if i == index {
              assert atts[j].sanitizedName != name;
            } else if j == index {
              assert atts[i].sanitizedName != name;
            } else {
              assert Names(t)[i] == Names(atts)[i] && Names(t)[j] == Names(atts)[j];
            }
          }
        }
      }
    }
  }

  // ---------------------------------------------------------------------------
  // Properties of the reducer

  /** Picking files pushes one `HashFile` per path, in order, and leaves the state as it was. */
  lemma FilesPickedOnlyQueuesHashing(s: State, paths: seq<Path>)
    ensures var (s', cmds, ev) := Step(s, FilesPicked(paths));
      s' == s && |cmds| == |paths| && (forall k :: 0 <= k < |paths| ==> cmds[k] == HashFile(paths[k]))
      && ev == Some(Event(Processing, false))
  {
  }

  /** A computed hash reports an error exactly when the file was refused. */
  lemma HashComputedErrorIffRefused(s: State, path: Path, sha256: string, size: U64, mime: string)
    ensures var (s', cmds, ev) := Step(s, HashComputed(path, sha256, size, mime));
      var added := AddedWithMeta(s, path, sha256, size, mime).1;
      ev.Some? && (ev.value.isError <==> !added) && (ev.value.message == Added <==> added)
      && (!added ==> s' == s) && cmds == []
  {
  }

  /** Removal always reports `"Attachment removed"`, also for an index out of range. */
  lemma RemoveAlwaysReported(s: State, index: nat)
    ensures Step(s, Remove(index)).2 == Some(Event(Removed, false))
  {
  }

  /** Every message keeps the invariant. */
  lemma StepValid(s: State, msg: Msg)
    requires Valid(s)
    ensures Valid(Step(s, msg).0)
  {
    match msg
    case HashComputed(path, sha256, size, mime) => AddValid(s, path, sha256, size, mime);
    case Remove(index) => RemoveValid(s, index);
    case CommitEdit => CommitValid(s);
    case _ =>
  }

  /**
   * Starting from an empty panel, archive names are always distinct and
   * `hashes` is always the set of known digests of the current files.
   */
  lemma {:induction false} ReachableValid(msgs: seq<Msg>)
    ensures Valid(Run(Initial, msgs))
  {
    if msgs != [] {
      ReachableValid(msgs[..|msgs| - 1]);
      StepValid(Run(Initial, msgs[..|msgs| - 1]), msgs[|msgs| - 1]);
    }
  }

  // ---------------------------------------------------------------------------
  // The model object

  /** `AttachmentsModel`. */
  class AttachmentsModel {
    var attachments: seq<Attachment>
    var thumbnailCache: map<Path, Texture>
    var thumbnailFailures: set<Path>
    var hashes: set<string>
    var editingIndex: Option<nat>
    var editingBuffer: string

    function Snapshot(): State
      reads this
    {
      State(attachments, thumbnailCache, thumbnailFailures, hashes, editingIndex, editingBuffer)
    }

    /** `AttachmentsModel::default()`. */
    constructor ()
      ensures Snapshot() == Initial
    {
      attachments, thumbnailCache, thumbnailFailures := [], map[], {};
      hashes, editingIndex, editingBuffer := {}, None, "";
    }

    /** `attachments()`: the current list in selection order. */
    method Attachments() returns (r: seq<Attachment>)
      ensures r == attachments
    {
      return attachments;
    }

    /** `add_attachment_with_meta`. */
    method AddAttachmentWithMeta(path: Path, sha256: string, size: U64, mime: string) returns (added: bool)
      modifies this
      ensures (Snapshot(), added) == AddedWithMeta(old(Snapshot()), path, sha256, size, mime)
    {
      var originalName := OriginalName(path, |attachments|);
      var name := SanitizeComponent(originalName);
      if name in Names(attachments) {
        return false;
      }
      if sha256 != Unavailable && sha256 in hashes {
        return false;
      }
      if sha256 != Unavailable {
        hashes := hashes + {sha256};
      }
      attachments := attachments + [Attachment(path, name, mime, sha256, size)];
      return true;
    }

    /** `remove_attachment`. */
    method RemoveAttachment(index: nat)
      modifies this
      ensures Snapshot() == RemovedAt(old(Snapshot()), index)
    {
      if index < |attachments| {
        var removed := attachments[index];
        thumbnailCache := thumbnailCache - {removed.path};
        thumbnailFailures := thumbnailFailures - {removed.path};
        if removed.sha256 != Unavailable {
          hashes := hashes - {removed.sha256};
        }
        attachments := attachments[..index] + attachments[index + 1..];
      }
    }

    /** `commit_filename_edit`. */
    method CommitFilenameEdit() returns (ev: Option<Event>)
      modifies this
      ensures (Snapshot(), ev) == CommittedFilenameEdit(old(Snapshot()))
    {
      if editingIndex.None? {
        return None;
      }
      var index := editingIndex.value;
      var raw := Trim(editingBuffer);
      if raw == [] {
        return Some(Event(EmptyFilename, true));
      }
      var name := SanitizeComponent(raw);
      if name == [] {
        return Some(Event(InvalidFilename, true));
      }
      if OtherUses(attachments, index, name) {
        return Some(Event(FilenameInUse, true));
      }
      if index < |attachments| {
        attachments := attachments[index := attachments[index].(sanitizedName := name)];
      }
      editingIndex := None;
      editingBuffer := "";
      return Some(Event(FilenameUpdated, false));
    }

    /** `update`: applies one message to the fields and returns the commands it pushes. */
    method Update(msg: Msg) returns (cmds: seq<Command>, ev: Option<Event>)
      modifies this
      ensures (Snapshot(), cmds, ev) == Step(old(Snapshot()), msg)
    {
      cmds, ev := [], None;
      match msg
      case RequestPickFiles =>
        cmds := [PickFiles];
      case FilesPicked(paths) =>
        for i := 0 to |paths|
          invariant cmds == HashCommands(paths[..i])
        {
          cmds := cmds + [HashFile(paths[i])];
        }
        assert paths[..|paths|] == paths;
        ev := Some(Event(Processing, false));
      case LoadThumbnail(path) =>
        cmds := [LoadThumbnailCmd(path)];
      case HashComputed(path, sha256, size, mime) =>
        var added := AddAttachmentWithMeta(path, sha256, size, mime);
        ev := Some(Event(if added then Added else Skipped, !added));
      case ThumbnailReady(path, texture) =>
        thumbnailCache := thumbnailCache[path := texture];
      case ThumbnailFailed(path) =>
        thumbnailFailures := thumbnailFailures + {path};
      case Remove(index) =>
        RemoveAttachment(index);
        ev := Some(Event(Removed, false));
      case StartEdit(index) =>
        editingIndex := Some(index);
        editingBuffer := if index < |attachments| then attachments[index].sanitizedName else "";
      case EditInputChanged(text) =>
        editingBuffer := text;
      case CommitEdit =>
        ev := CommitFilenameEdit();
      case CancelEdit =>
        editingIndex, editingBuffer := None, "";
    }
  }
}
