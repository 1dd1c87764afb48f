# ELNPack core in Dafny

ELNPack is a desktop editor for electronic lab notebook entries. An entry has a title, a markdown body, attachments, keywords, eLabFTW extra fields and a date and time. The editor saves the entry as an `.eln` archive: a ZIP file holding an RO-Crate `ro-crate-metadata.json` beside the attached files. This project models the parts of ELNPack that decide what goes into that archive and how the editor's state changes. It proves what those parts promise.

The modules follow the program's source files:

- `Wrappers`, `Text`, `Json`, `Paths`: Rust's `Option`/`Result`, the `str` methods the program relies on (Unicode trimming, ASCII case mapping, lowercasing of the ASCII and Latin-1 capitals, splitting, integer parsing), `serde_json::Value` with compact serialization, and the `std::path` rules it uses.
- `Sanitize` (`src/utils/sanitize_component.rs`): the filesystem-safe name transform. It is written as the source's loops, and its character set, separator runs, trailing dots, reserved device names and fallback name are proved.
- `DomainAttachment`, `DomainKeywords`, `DomainExtraFields` (`src/models/`):
  - attachment metadata and the unique-archive-name check;
  - keyword normalization (ASCII-case-insensitive dedup that keeps first occurrences);
  - extra-field kinds, the sort key, per-kind validation and the import of eLabFTW metadata.
- `KeywordsUi`, `AttachmentsUi`, `ExtraFieldsUi`, `MarkdownUi`, `DateTimePicker` (`src/ui/components/`): each editor component is a class whose methods update its fields. Each method is proved equal to a pure reducer `Step`, and the lemmas about `Step` prove the component's invariants are preserved from its initial state.
- `ElnNames`, `Rfc3339`, `ElnExport`, `ElnArchive` (`src/logic/eln.rs`):
  - the suggested archive name, the extension rule and the genre tokens;
  - the `performed_at` timestamp in RFC 3339 form;
  - the RO-Crate nodes and the eLabFTW metadata document built from the extra fields, with the round trip back through the importer;
  - the steps of `build_and_write_archive`: the duplicate-name guard, the re-hash before each file is written, entry order and the metadata graph.
- `FileIcons` (`src/utils/file_icons.rs`): the first-match icon chain and the archive MIME test.
- `Mvu` (`src/mvu/mod.rs`): the root application state, its messages and commands. This covers the reducer that routes each message to its component and translates the component's commands, status and error feedback, and save validation. `AppModel.Update` is proved equal to the reducer `Step`. An invariant is proved for every state reachable from the default model.

Foreign code is passed as parameters, so the model makes no claim about it:
- the SHA-256 digest and the file contents;
- fresh UUIDs;
- markdown-to-HTML rendering;
- the URL, number and e-mail parsers;
- the local time zone and the clock.

## Model

| member | source | states |
|---|---|---|
| DomainAttachment.New | src/models/attachment.rs:47-61 | the attachment holds exactly the path, archive name, MIME type, digest and size it was given |
| DomainAttachment.UniqueNamesCheck | src/models/attachment.rs:82-93 | `Ok` exactly when the archive names are pairwise distinct; otherwise the error is "Duplicate attachment filename in archive: " with the name of the first attachment that repeats an earlier one |
| DomainAttachment.AssertUniqueSanitizedNames | src/models/attachment.rs:82-93 | the single pass that inserts each name into a set and stops at the first failed insert returns exactly that verdict |
| DomainAttachment.FirstRepeatAt | src/models/attachment.rs:84-90 | a name that repeats an earlier one, with all names before it distinct, is the one reported |
| DomainAttachment.EmptyAccepted | src/models/attachment.rs:82-93 | an empty attachment list is accepted |
| DomainAttachment.OnlyNamesCompared | src/models/attachment.rs:82-93 | two lists with the same archive names get the same verdict and the same error, whatever their paths, MIME types, digests and sizes |
| DomainAttachment.SameNameRejected | src/models/attachment.rs:76-80 | two attachments with the same archive name are rejected with that name, even when everything else differs |
| DomainKeywords.Keywords.constructor | src/models/keywords.rs:26-30 | the new collection holds the given list normalized (`Dedup`) |
| DomainKeywords.Keywords.Normalize | src/models/keywords.rs:58-70 | the `retain` loop with its `seen` list of lowercased keys leaves exactly `Dedup` of the old list |
| DomainKeywords.Keywords.Items | src/models/keywords.rs:41-43 | returns the normalized list |
| DomainKeywords.Keywords.IntoVec | src/models/keywords.rs:54-56 | returns the normalized list |
| DomainKeywords.DedupIsSubsequence | src/models/keywords.rs:58-70 | the normalized list is the input at strictly increasing positions, those positions are first occurrences of their ASCII-lowercased key, and every first occurrence is kept |
| DomainKeywords.DedupUnique | src/models/keywords.rs:13-16 | no two kept keywords are equal after ASCII lowercasing |
| DomainKeywords.DedupCovers | src/models/keywords.rs:13-16 | every input keyword is represented in the result by the first occurrence of its key, in that occurrence's own casing |
| DomainKeywords.DedupSnoc | src/models/keywords.rs:61-69 | appending a keyword whose key is already used keeps the result unchanged; appending a new key appends the keyword itself |
| DomainKeywords.FirstOccurrencePrefix | src/models/keywords.rs:61-69 | whether an item is kept depends only on the items before it |
| DomainKeywords.ExampleCaseDuplicates | src/models/keywords.rs:23-24 | `["DNA", "dna", "RNA"]` normalizes to `["DNA", "RNA"]` |
| DomainKeywords.ExampleWhitespaceKept | src/models/keywords.rs:15-16 | surrounding whitespace is kept, so `" a"` and `"a"` are both kept |
| DomainKeywords.Dedup | src/models/keywords.rs:58-70 | the reference definition of `normalize`: the items that are the first with their ASCII-lowercased key, in input order; `DedupIsSubsequence`, `DedupUnique` and `DedupCovers` prove it keeps exactly those first occurrences in order, leaves no two equal keys and represents every input item |
| DomainKeywords.Keywords.Valid | src/models/keywords.rs:13-16 | the collection's invariant: no two held keywords have the same ASCII-lowercased key; the constructor and `Normalize` establish it |
| Sanitize.SanitizeComponent | src/utils/sanitize_component.rs:17-110 | the character loop with its `last` marker, the `_.` removal loop, the trailing-dot loop and the two guards compute exactly `Sanitized(value)` |
| Sanitize.TransliterateChar | src/utils/sanitize_component.rs:18-19 | ASCII characters transliterate to themselves |
| Sanitize.TransliterateAscii | src/utils/sanitize_component.rs:18-19 | ASCII text passes transliteration unchanged |
| Sanitize.TransliterateConcat | src/utils/sanitize_component.rs:18-19 | transliteration works character by character: it distributes over concatenation |
| Sanitize.MapChar | src/utils/sanitize_component.rs:25-29 | every mapped character is allowed, and allowed characters map to themselves |
| Sanitize.CollapseShape | src/utils/sanitize_component.rs:23-49 | after the mapping loop every character is allowed and no `_` or `.` follows itself |
| Sanitize.CollapseStep | src/utils/sanitize_component.rs:24-49 | one loop iteration pushes the mapped character unless it repeats the last `_` or `.` |
| Sanitize.CollapseNonEmpty | src/utils/sanitize_component.rs:24-49 | the loop's output is empty exactly when its input is |
| Sanitize.CollapseClean | src/utils/sanitize_component.rs:24-49 | allowed text without runs passes the loop unchanged |
| Sanitize.CollapseAppend | src/utils/sanitize_component.rs:24-49 | the loop over `a + b` is the loop over `a` followed by the loop over `b` when the join does not form a run |
| Sanitize.CollapseAbsorb | src/utils/sanitize_component.rs:32-43 | a `_` or `.` after a buffer already ending in it is dropped |
| Sanitize.CollapseDotRun | src/utils/sanitize_component.rs:38-43 | any run of one or more dots becomes a single dot |
| Sanitize.CollapseDotSeparated | src/utils/sanitize_component.rs:14-16 | plain words separated by runs of dots come out joined by single dots, so multi-part extensions survive |
| Sanitize.FindUnderscoreDot | src/utils/sanitize_component.rs:52 | `find("_.")`: the index found starts a `_.` pair and no earlier index does; absent when there is no pair |
| Sanitize.FindUnderscoreDotAt | src/utils/sanitize_component.rs:52 | a `_.` pair with no `_` or no `.` before it is the one found |
| Sanitize.StripUnderscoreDots | src/utils/sanitize_component.rs:51-54 | the removal loop leaves no `_.` pair and never lengthens the text |
| Sanitize.StripNothing | src/utils/sanitize_component.rs:51-54 | text without `_` or without `.` is left unchanged |
| Sanitize.StripKeepsAllowed | src/utils/sanitize_component.rs:51-54 | deleting characters keeps every character allowed |
| Sanitize.TrimTrailingDots | src/utils/sanitize_component.rs:56-59 | the result is a prefix of the input that ends in neither `.` nor a space, and every character cut off is a `.` or a space |
| Sanitize.SplitBase | src/utils/sanitize_component.rs:67-70 | `rsplit_once('.')` with a non-empty base: the name is base, `.` and an extension without `.`; otherwise, exactly when no `.` follows the first character, the whole name is the base |
| Sanitize.SplitBaseOfJoined | src/utils/sanitize_component.rs:67-70 | a base and an extension without dots joined by `.` split back into the two |
| Sanitize.LongNamesNotReserved | src/utils/sanitize_component.rs:72-97 | bases shorter than three or longer than four characters are never device names |
| Sanitize.ReservedNamesHaveNoUnderscoreOrDot | src/utils/sanitize_component.rs:72-97 | a device name is non-empty and contains neither `_` nor `.` |
| Sanitize.EndsWithUnderscoreNotReserved | src/utils/sanitize_component.rs:99-107 | a base ending in `_` is never a device name, so the suffix always takes effect |
| Sanitize.CleanedShape | src/utils/sanitize_component.rs:23-59 | after the clean-up loops every character is allowed and the buffer does not end with `.` |
| Sanitize.FinishReservedRule | src/utils/sanitize_component.rs:66-107 | the extension is kept and the base gets a `_` exactly when it is a device name in any letter case; the new base is never a device name |
| Sanitize.SanitizedAllowed | src/utils/sanitize_component.rs:6-12 | every character of the result is an ASCII letter or digit, `-`, `_` or `.` |
| Sanitize.SanitizedShape | src/utils/sanitize_component.rs:56-64 | the result is never empty and never ends with `.` |
| Sanitize.SanitizedFallback | src/utils/sanitize_component.rs:61-64 | a buffer that is empty, `.` or `..` after clean-up gives `eln_entry` |
| Sanitize.SanitizedBaseNotReserved | src/utils/sanitize_component.rs:66-107 | the base name of a result is never a Windows device name |
| Sanitize.ExampleMultiPartExtension | src/utils/sanitize_component.rs:131-135 | `data..v1...2.tar..gz` gives `data.v1.2.tar.gz` |
| Sanitize.ExampleTrailingDot | src/utils/sanitize_component.rs:138-142 | `name.` gives `name` |
| Sanitize.ExampleReservedBare | src/utils/sanitize_component.rs:145-147 | `CON` gives `CON_` |
| Sanitize.ExampleReservedWithExtension | src/utils/sanitize_component.rs:145-148 | `NUL.txt` gives `NUL_.txt` |
| Sanitize.ExampleOnlyDots | src/utils/sanitize_component.rs:152-155 | `...` gives `eln_entry` |
| Sanitize.ExampleAccents | src/utils/sanitize_component.rs:117-121 | `Café (draft).md` gives `Cafe_draft.md` |
| Sanitize.NotIdempotent | src/utils/sanitize_component.rs:51-54 | sanitizing is not idempotent: `a._.b` gives `a..b`, which sanitizes again to `a.b` |
| Sanitize.Transliterate | src/utils/sanitize_component.rs:18-19 | the transliteration stage, one character at a time through `TransliterateChar`; `TransliterateConcat` and `TransliterateAscii` are its laws |
| Sanitize.Collapse | src/utils/sanitize_component.rs:20-48 | the character loop as a fold of `PushCollapsing` over the text: characters outside `[A-Za-z0-9._-]` become `_`, runs of `_` and of `.` shrink to one; `CollapseShape` proves the result allowed and free of such runs |
| Sanitize.Cleaned | src/utils/sanitize_component.rs:18-59 | the buffer after transliteration, the character loop, the `_.` removal and the trailing-dot trim; `CleanedShape` proves its shape |
| Sanitize.Finish | src/utils/sanitize_component.rs:61-107 | the `eln_entry` fallback for an empty, `.` or `..` buffer, then `_` after a reserved device basename, before the extension; `FinishAllowed`, `FinishShape` and `FinishReservedRule` are its laws |
| Sanitize.Sanitized | src/utils/sanitize_component.rs:17-110 | the reference definition of `sanitize_component` that `SanitizeComponent` is proved to compute; `SanitizedAllowed`, `SanitizedShape`, `SanitizedFallback` and `SanitizedBaseNotReserved` state what it guarantees |
| Sanitize.PushCollapsing | src/utils/sanitize_component.rs:31-47 | one arm of the `match mapped`: a `_` or `.` right after the same character is dropped, anything else is pushed; `CollapseStep` proves the character loop is a fold of it and `CollapseAbsorb` that a repeated `_` or `.` adds nothing |
| Sanitize.IsReserved | src/utils/sanitize_component.rs:72-97 | a base is reserved when its ASCII uppercase is one of the 22 Windows device names; `LongNamesNotReserved`, `ReservedNamesHaveNoUnderscoreOrDot` and `EndsWithUnderscoreNotReserved` prove only 3- or 4-character names without `_` or `.` qualify, so the appended `_` always escapes |
| Sanitize.BaseName | src/utils/sanitize_component.rs:67-70 | the base the reserved-name rule inspects, the part before the last `.` when that part is non-empty; `SanitizedBaseNotReserved` proves the base of every sanitized name is no device name |
| KeywordsUi.KeywordsModel.constructor | src/ui/components/keywords.rs:9-16 | the default model: no keywords, the dialog closed and empty, nothing being edited |
| KeywordsUi.KeywordsModel.Keywords | src/ui/components/keywords.rs:43-45 | returns the current list |
| KeywordsUi.KeywordsModel.Update | src/ui/components/keywords.rs:49-106 | the fields after the call and the event returned are exactly the reducer `Step` on the old fields |
| KeywordsUi.KeywordsModel.ProcessModalInput | src/ui/components/keywords.rs:297-342 | the new fields, the status message and the added flag are exactly `ProcessedInput` of the old fields |
| KeywordsUi.TallyParts | src/ui/components/keywords.rs:302-320 | the loop over the comma-separated parts ends with the counts and the list that `AddParts` gives |
| KeywordsUi.KeywordsModel.CommitEdit | src/ui/components/keywords.rs:345-374 | the new fields and the event are exactly `CommittedEdit` of the old fields |
| KeywordsUi.SkippedClauses | src/ui/components/keywords.rs:322-328 | there is no "skipped" clause exactly when there were no duplicates and no blank parts |
| KeywordsUi.ModalMessage | src/ui/components/keywords.rs:330-339 | with nothing added the message is "No keywords added; skipped duplicates or empty entries."; otherwise it starts with "Added n keyword(s)" for the number added |
| KeywordsUi.AddPartCases | src/ui/components/keywords.rs:302-320 | a blank part is counted as empty, a part matching a keyword ignoring ASCII case as a duplicate, anything else is appended trimmed |
| KeywordsUi.AddPartsCounts | src/ui/components/keywords.rs:297-320 | every part is counted exactly once, the old keywords stay in front and exactly the added parts are appended |
| KeywordsUi.AddPartsCovers | src/ui/components/keywords.rs:302-320 | after adding, every non-blank part is in the list ignoring ASCII case |
| KeywordsUi.AddPartsAppendsParts | src/ui/components/keywords.rs:302-320 | every appended keyword is one of the parts, trimmed |
| KeywordsUi.AddPartsValid | src/ui/components/keywords.rs:302-320 | adding keeps the list trimmed, free of blanks and unique ignoring ASCII case |
| KeywordsUi.AddFromModalClosesOnlyOnAdd | src/ui/components/keywords.rs:65-75 | the event is the status message, never an error; the dialog closes and clears only when something was added, and otherwise nothing changes |
| KeywordsUi.CommitBlankRefused | src/ui/components/keywords.rs:347-353 | a blank edit is refused with "Keyword cannot be empty." as an error and changes nothing |
| KeywordsUi.CommitDuplicateRefused | src/ui/components/keywords.rs:355-365 | an edit equal to another keyword ignoring ASCII case is refused with "Keyword already exists." and changes nothing |
| KeywordsUi.CommitWithoutEditIgnored | src/ui/components/keywords.rs:346 | without an edited index nothing happens |
| KeywordsUi.CommitAccepted | src/ui/components/keywords.rs:367-373 | an accepted edit stores the trimmed buffer at the edited index only, ends editing, reports nothing and leaves the dialog alone |
| KeywordsUi.RemoveSpec | src/ui/components/keywords.rs:91-104 | an index in range deletes exactly that keyword, keeps the others in order, reports "Keyword removed" and ends editing only when that keyword was being edited; an index out of range changes nothing |
| KeywordsUi.RemoveValid | src/ui/components/keywords.rs:91-104 | removing keeps the list valid |
| KeywordsUi.CommitValid | src/ui/components/keywords.rs:345-374 | committing keeps the list valid |
| KeywordsUi.StepValid | src/ui/components/keywords.rs:49-106 | every message keeps the list trimmed, non-blank and unique ignoring ASCII case |
| KeywordsUi.ReachableValid | src/ui/components/keywords.rs:49-106 | from the default model every sequence of messages leaves a valid list |
| KeywordsUi.Step | src/ui/components/keywords.rs:49-108 | `update` as a value: each message's arm on the keyword list, the modal input and the edit slot; `StepValid` proves it keeps keywords non-blank, trimmed and distinct ignoring ASCII case, and the `Commit*` and `AddParts*` lemmas state each arm |
| KeywordsUi.AddParts | src/ui/components/keywords.rs:302-320 | the comma-separated parts handled in order, each counted as empty, duplicate or added; `AddPartsCounts`, `AddPartsCovers`, `AddPartsAppendsParts` and `AddPartsValid` prove every part is counted once, the old list stays a prefix, every non-blank part ends up in the list, only parts are appended and the list stays valid |
| KeywordsUi.ProcessedInput | src/ui/components/keywords.rs:297-342 | `process_modal_input` as a value: the list after adding the parts, the status message and whether anything was added; `AddFromModalClosesOnlyOnAdd` proves the dialog closes and is cleared exactly when a keyword was added |
| KeywordsUi.CommittedEdit | src/ui/components/keywords.rs:345-374 | `commit_edit` as a value; `CommitWithoutEditIgnored`, `CommitBlankRefused`, `CommitDuplicateRefused` and `CommitAccepted` prove each branch (nothing without an edit, a blank or duplicate edit refused with its error and no change, otherwise the trimmed text stored and editing ended) and `CommitValid` that the list stays valid |
| AttachmentsUi.AttachmentsModel.constructor | src/ui/components/attachments.rs:43-51 | the default panel: no files, empty caches, no digests, nothing being edited |
| AttachmentsUi.AttachmentsModel.Attachments | src/ui/components/attachments.rs:98-100 | returns the current list in selection order |
| AttachmentsUi.AttachmentsModel.AddAttachmentWithMeta | src/ui/components/attachments.rs:370-406 | the new fields and the added flag are exactly `AddedWithMeta` of the old fields |
| AttachmentsUi.AttachmentsModel.RemoveAttachment | src/ui/components/attachments.rs:409-420 | the new fields are exactly `RemovedAt` of the old fields |
| AttachmentsUi.AttachmentsModel.CommitFilenameEdit | src/ui/components/attachments.rs:423-466 | the new fields and the event are exactly `CommittedFilenameEdit` of the old fields |
| AttachmentsUi.AttachmentsModel.Update | src/ui/components/attachments.rs:114-188 | the new fields, the commands pushed and the event are exactly the reducer `Step` on the old fields |
| AttachmentsUi.OriginalName | src/ui/components/attachments.rs:377-380 | a path with a file name is taken under that name |
| AttachmentsUi.HashCommands | src/ui/components/attachments.rs:124-127 | one `HashFile` command per picked path, in order |
| AttachmentsUi.IsImageByExtension | src/ui/components/attachments.rs:469-479 | a file is an image exactly when its extension, ASCII-lowercased, is one of png, jpg, jpeg, bmp, tiff, tif, gif, webp, svg |
| AttachmentsUi.NoExtensionNoImage | src/ui/components/attachments.rs:469-479 | a path without an extension is never an image |
| AttachmentsUi.AddRejectsTakenName | src/ui/components/attachments.rs:383-389 | a file whose sanitized name is already taken is refused and nothing changes |
| AttachmentsUi.AddRejectsKnownDigest | src/ui/components/attachments.rs:391-393 | a file whose known digest is already held is refused and nothing changes |
| AttachmentsUi.UnavailableNeverBlocks | src/ui/components/attachments.rs:391-397 | a file without a digest is added exactly when its name is free, and no digest is recorded |
| AttachmentsUi.AddAppendsOne | src/ui/components/attachments.rs:395-405 | an accepted file is appended once at the end under its sanitized name, its digest recorded unless unavailable, the rest unchanged |
| AttachmentsUi.AddRefusedUnchanged | src/ui/components/attachments.rs:383-393 | a refused file leaves the whole state unchanged |
| AttachmentsUi.AddValid | src/ui/components/attachments.rs:370-406 | adding keeps names distinct, digests distinct and `hashes` equal to the set of known digests |
| AttachmentsUi.RemoveOutOfRange | src/ui/components/attachments.rs:409-420 | an index out of range changes nothing |
| AttachmentsUi.RemoveDropsOne | src/ui/components/attachments.rs:409-420 | an index in range drops exactly that file, keeps the others in order and forgets its thumbnail and failure entries |
| AttachmentsUi.DigestsRemove | src/ui/components/attachments.rs:413-415 | when digests are distinct, removing a file removes exactly its digest from the known ones |
| AttachmentsUi.RemoveValid | src/ui/components/attachments.rs:409-420 | removing keeps the invariant |
| AttachmentsUi.CommitBlankRefused | src/ui/components/attachments.rs:426-432 | a blank buffer is refused with "Filename cannot be empty." and changes nothing |
| AttachmentsUi.CommitInUseRefused | src/ui/components/attachments.rs:442-452 | a sanitized name used by another file is refused with "Another attachment already uses this filename in the archive." and changes nothing |
| AttachmentsUi.InvalidAfterSanitizationNeverReported | src/ui/components/attachments.rs:434-440 | the "Filename is invalid after sanitization." error can never be returned |
| AttachmentsUi.CommitWithoutEditIgnored | src/ui/components/attachments.rs:424 | without an edited index nothing happens |
| AttachmentsUi.CommitAccepted | src/ui/components/attachments.rs:454-465 | an accepted rename changes only the edited file's name, to the sanitized buffer, ends editing and reports "Attachment filename updated." |
| AttachmentsUi.CommitValid | src/ui/components/attachments.rs:423-466 | renaming keeps the invariant |
| AttachmentsUi.FilesPickedOnlyQueuesHashing | src/ui/components/attachments.rs:124-132 | picking files pushes one `HashFile` per path in order, reports "Processing attachments..." and changes nothing |
| AttachmentsUi.HashComputedErrorIffRefused | src/ui/components/attachments.rs:137-152 | a computed hash reports an error exactly when the file was refused, and "Attachment added" exactly when it was added |
| AttachmentsUi.RemoveAlwaysReported | src/ui/components/attachments.rs:161-167 | removal always reports "Attachment removed", also for an index out of range |
| AttachmentsUi.StepValid | src/ui/components/attachments.rs:114-188 | every message keeps the invariant |
| AttachmentsUi.ReachableValid | src/ui/components/attachments.rs:114-188 | from the default panel every sequence of messages keeps archive names distinct and `hashes` equal to the known digests of the current files |
| AttachmentsUi.Step | src/ui/components/attachments.rs:114-190 | `update` as a value: the new attachment list, edit state and commands of each message; `StepValid` proves it keeps archive names and digests distinct, and the `Add*`, `Remove*` and `Commit*` lemmas state each arm |
| AttachmentsUi.IsImage | src/ui/components/attachments.rs:469-481 | an attachment is an image exactly when its lowercased extension is one of the image extensions; `IsImageByExtension` and `NoExtensionNoImage` state both sides |
| AttachmentsUi.AddedWithMeta | src/ui/components/attachments.rs:370-406 | `add_attachment_with_meta` as a value; `AddRejectsTakenName`, `AddRejectsKnownDigest`, `UnavailableNeverBlocks`, `AddAppendsOne` and `AddRefusedUnchanged` prove a taken sanitized name or known digest is refused with no change, `"unavailable"` never blocks, and an accepted file is appended once; `AddValid` that names and digests stay distinct |
| AttachmentsUi.RemovedAt | src/ui/components/attachments.rs:409-420 | `remove_attachment` as a value; `RemoveOutOfRange`, `RemoveDropsOne`, `DigestsRemove` and `RemoveValid` prove an index out of range changes nothing, an index in range drops exactly that file with its cache entries and digest, and the invariant is kept |
| AttachmentsUi.CommittedFilenameEdit | src/ui/components/attachments.rs:423-466 | `commit_filename_edit` as a value; `CommitWithoutEditIgnored`, `CommitBlankRefused`, `InvalidAfterSanitizationNeverReported`, `CommitInUseRefused` and `CommitAccepted` prove each branch (the invalid-name branch unreachable) and `CommitValid` that names stay distinct |
| DomainExtraFields.FromStrKnown | src/models/extra_fields.rs:48-65 | `from_str` keeps the token: `as_str` always gives it back, and exactly the thirteen known tokens give a known kind |
| DomainExtraFields.FromStrAsStr | src/models/extra_fields.rs:48-86 | every known kind survives the round trip through its token |
| DomainExtraFields.AsStr | src/models/extra_fields.rs:68-86 | an unknown kind is written as the token it was read from |
| DomainExtraFields.KindLookupSpec | src/models/extra_fields.rs:48-65 | over a table whose rows agree with `as_str`, the lookup gives back the token and a known kind exactly for the table's tokens |
| DomainExtraFields.KindLookupAt | src/models/extra_fields.rs:48-65 | a token is mapped to the kind of its first row |
| DomainExtraFields.KindIndex | src/models/extra_fields.rs:48-65 | every known kind has a row in the token table, and no earlier row has its token |
| DomainExtraFields.KindTableConsistent | src/models/extra_fields.rs:48-86 | each row of the `from_str` table is a known kind with the token `as_str` gives it |
| DomainExtraFields.UnknownKnownTokenNotRecovered | src/models/extra_fields.rs:48-65 | an `Unknown` kind holding a known token reads back as the known kind, not as itself |
| DomainExtraFields.CmpKey | src/models/extra_fields.rs:109-111 | the key is the position, `i32::MAX` when missing, then the label |
| DomainExtraFields.KeyOrder | src/models/extra_fields.rs:109-111 | ordering by `cmp_key` is reflexive, total and transitive, and only fields with equal keys are tied |
| DomainExtraFields.LexLessTotal | src/models/extra_fields.rs:109-111 | two labels are equal or one is below the other in `str` order |
| DomainExtraFields.LexLessAsym | src/models/extra_fields.rs:109-111 | no two labels are each below the other |
| DomainExtraFields.MissingPositionSortsLast | src/models/extra_fields.rs:109-111 | a field without a position sorts after every field placed below `i32::MAX` |
| DomainExtraFields.InsertFieldPerm | src/models/extra_fields.rs:357 | inserting into the sorted prefix adds exactly the one field |
| DomainExtraFields.InsertFieldSorted | src/models/extra_fields.rs:357 | inserting a field after every field whose key is not greater keeps the list sorted |
| DomainExtraFields.SortFieldsSorted | src/models/extra_fields.rs:357 | the stable sort by `cmp_key` yields a sorted permutation of its input |
| DomainExtraFields.SortedPermutationUnique | src/models/extra_fields.rs:357 | with distinct labels two sorted permutations of the same fields are equal |
| DomainExtraFields.SortIgnoresInputOrder | src/models/extra_fields.rs:300-357 | when labels differ the sorted fields do not depend on the order the map entries came in |
| DomainExtraFields.DistinctLabelsPerm | src/models/extra_fields.rs:300-357 | distinct labels stay distinct under any reordering |
| DomainExtraFields.ValidateFieldStages | src/models/extra_fields.rs:154-204 | a blank value fails only as "required" and only for a required field; a non-blank value goes, trimmed, to the rule of its kind |
| DomainExtraFields.RequiredCheckedFirst | src/models/extra_fields.rs:157-159 | the reason is "required" exactly for a required field whose trimmed value is empty, whatever its kind |
| DomainExtraFields.BlankOptionalValid | src/models/extra_fields.rs:161-203 | an optional field with a blank value is valid for every kind |
| DomainExtraFields.UncheckedKindsValid | src/models/extra_fields.rs:202 | kinds without a rule fail only the required check |
| DomainExtraFields.IdKindsNeedInteger | src/models/extra_fields.rs:182-191 | items, experiments and users fail as "invalid_integer" exactly when the non-blank trimmed value is not an `i64`, and pass exactly otherwise |
| DomainExtraFields.ParsedKindsUseParser | src/models/extra_fields.rs:162-201 | url, number and email values are valid exactly when their parser accepts the trimmed value |
| DomainExtraFields.KindRuleNeverRequired | src/models/extra_fields.rs:161-203 | no kind rule returns "required" |
| DomainExtraFields.KindRuleUnchecked | src/models/extra_fields.rs:202 | kinds without a rule accept every value |
| DomainExtraFields.KindRuleId | src/models/extra_fields.rs:182-191 | the id kinds accept exactly the values that parse as `i64` |
| DomainExtraFields.ValueToString | src/models/extra_fields.rs:397-404 | there is a text exactly when there is a value |
| DomainExtraFields.ValueToStringSpec | src/models/extra_fields.rs:397-404 | strings stay as they are, integers are written in decimal, `true` is "on" and `false` is "", anything else is its JSON text |
| DomainExtraFields.Strings | src/models/extra_fields.rs:305-314 | `filter_map(value_to_string)` over an array drops nothing |
| DomainExtraFields.StringsSpec | src/models/extra_fields.rs:305-314 | element `i` of the list is the text of element `i` of the array |
| DomainExtraFields.Member | src/models/extra_fields.rs:234-259 | a member present at most once decodes to its lookup; a repeated member is a parse error |
| DomainExtraFields.DecodeEntries | src/models/extra_fields.rs:207-208 | the decoded map has each key once |
| DomainExtraFields.DecodeEnvelope | src/models/extra_fields.rs:297-298 | a decoded envelope has each field label once |
| DomainExtraFields.NonBlank | src/models/extra_fields.rs:344 | a kept unit or description is the one given |
| DomainExtraFields.NonBlankSpec | src/models/extra_fields.rs:344-347 | a unit or description is kept exactly when it is present and not all whitespace |
| DomainExtraFields.GroupIdOfSpec | src/models/extra_fields.rs:333-337 | a group id comes from an integer that fits `i64`, cut to 32 bits, or from a string holding an `i32`; anything else gives no group |
| DomainExtraFields.ConvertField | src/models/extra_fields.rs:339-340 | the field's label is the map key |
| DomainExtraFields.ConvertFieldSpec | src/models/extra_fields.rs:302-352 | the kind is read from the trimmed token, an array value gives the list and its ", "-join, any other value its text, options and units as text, blank unit and description dropped, the rest copied |
| DomainExtraFields.ConvertAllAt | src/models/extra_fields.rs:302-353 | field `i` is entry `i` converted and carries its key as label |
| DomainExtraFields.ConvertAllLabels | src/models/extra_fields.rs:302-353 | every field carries its entry's key as label |
| DomainExtraFields.ConvertedLabelsDistinct | src/models/extra_fields.rs:302-353 | entries with distinct keys give fields with distinct labels |
| DomainExtraFields.ConvertEntries | src/models/extra_fields.rs:302-353 | the loop pushing one converted field per entry yields exactly `ConvertAll` |
| DomainExtraFields.GroupAt | src/models/extra_fields.rs:358-369 | entry `idx` gives a group exactly when its id is an integer or a string holding an `i32`; the group keeps the name and is numbered by its source index (cut to 32 bits) |
| DomainExtraFields.CollectGroups | src/models/extra_fields.rs:358-376 | the pass over the group list yields exactly the groups `GroupsUpTo` describes |
| DomainExtraFields.ParseElabftwExtraFields | src/models/extra_fields.rs:296-379 | the imperative import returns exactly `ParseSpec` of the document, error included |
| DomainExtraFields.ImportedFieldsSorted | src/models/extra_fields.rs:300-357 | the imported fields are sorted by `cmp_key` and are the map's entries converted, none lost or added |
| DomainExtraFields.ImportedLabelsDistinct | src/models/extra_fields.rs:207-208 | the imported labels are distinct |
| DomainExtraFields.GroupsFromSource | src/models/extra_fields.rs:358-376 | every imported group is the group built from the source entry at its position |
| DomainExtraFields.GroupsInSourceOrder | src/models/extra_fields.rs:358-376 | the imported groups keep the order of the source list |
| DomainExtraFields.GroupsComplete | src/models/extra_fields.rs:358-376 | every source entry whose id converts is imported |
| DomainExtraFields.FromStr | src/models/extra_fields.rs:48-66 | `ExtraFieldKind::from_str` as a table lookup; `FromStrKnown` proves the token is always recovered by `as_str` and that exactly the table's tokens give a known kind |
| DomainExtraFields.SortFields | src/models/extra_fields.rs:109-125 | a stable insertion sort by position then lowercased label; `SortFieldsSorted` proves the result sorted and a permutation, and `SortIgnoresInputOrder` that two orderings of the same fields, labels distinct, sort alike |
| DomainExtraFields.ValidateField | src/models/extra_fields.rs:154-200 | `validate_field`: a required blank value is refused, an optional blank one accepted, a non-blank one goes to its kind's rule; `ValidateFieldStages`, `RequiredCheckedFirst` and `IdKindsNeedInteger` state those cases |
| DomainExtraFields.ParseSpec | src/models/extra_fields.rs:296-396 | `parse_elabftw_extra_fields` as a value: the envelope decoded, the fields converted and sorted, the groups kept in source order; `ImportedFieldsSorted`, `ImportedLabelsDistinct` and `GroupsInSourceOrder` are its laws |
| DomainExtraFields.KindRule | src/models/extra_fields.rs:161-203 | the check of a non-blank value by kind: URL, number and e-mail through their parsers, items, experiments and users by `i64` parsing, every other kind accepting; `KindRuleNeverRequired`, `KindRuleUnchecked`, `KindRuleId` and `ParsedKindsUseParser` prove it |
| DomainExtraFields.GroupIdOf | src/models/extra_fields.rs:333-337 | a field's `group_id`; `GroupIdOfSpec` proves it comes from an integer that fits `i64` cut to 32 bits or from a string holding an `i32`, and `ElnExport.GroupIdRoundTrip` that an exported id is read back unchanged |
| DomainExtraFields.ConvertAll | src/models/extra_fields.rs:302-353 | one field per map entry, in the map's order (its ensures: as many fields as entries); `ConvertAllAt`, `ConvertAllLabels` and `ConvertedLabelsDistinct` prove field `i` is entry `i` converted and labelled by its key, and distinct keys give distinct labels |
| DomainExtraFields.InsertField | src/models/extra_fields.rs:357 | one step of the stable sort: the field goes after every field whose key is not greater; `InsertFieldPerm` and `InsertFieldSorted` prove it adds exactly that field and keeps a sorted list sorted |
| DomainExtraFields.DecodeFieldRaw | src/models/extra_fields.rs:234-259 | deserializing one `ExtraFieldRaw`: a non-object, a repeated member, a missing `type` or a member of the wrong type is an error, every other member may be absent and takes its default; `ElnExport.FieldObjectDecodes` proves every exported field object decodes to the raw entry of that field |
| ExtraFieldsUi.MaxId | src/ui/components/extra_fields.rs:145 | the largest group id is at least every id and is the id of some group |
| ExtraFieldsUi.FindNamed | src/ui/components/extra_fields.rs:142 | `iter().find` by name: the first group with that name, or none exactly when no group has it |
| ExtraFieldsUi.FindId | src/ui/components/extra_fields.rs:195-196 | `iter().find` by id: the first group with that id, or none exactly when no group has it |
| ExtraFieldsUi.MinGroup | src/ui/components/extra_fields.rs:172-175 | `min_by_key((position, id))` picks a group whose key is not above any other group's |
| ExtraFieldsUi.EnsureDefaultReuses | src/ui/components/extra_fields.rs:141-144 | an existing `"Default"` group is reused: the groups are unchanged and the first such group's id is returned |
| ExtraFieldsUi.EnsureDefaultAppends | src/ui/components/extra_fields.rs:141-152 | without a `"Default"` group, one is appended with id one above the largest (1 for no groups) and the old length as position |
| ExtraFieldsUi.EnsureDefaultNamesId | src/ui/components/extra_fields.rs:141-152 | the returned id always belongs to a group named `"Default"` |
| ExtraFieldsUi.NextIdFresh | src/ui/components/extra_fields.rs:548-555 | the next id exceeds every existing id, unless the largest is already `i32::MAX` |
| ExtraFieldsUi.AddGroupKeepsIdsUnique | src/ui/components/extra_fields.rs:548-555 | `AddGroup` keeps the old groups as a prefix and appends one whose id is above all others, so unique ids stay unique |
| ExtraFieldsUi.LowestPositionSpec | src/ui/components/extra_fields.rs:168-177 | with groups present, the id minimising `(position, id)` is returned and nothing is created; with none, a Default group with id 1 is created |
| ExtraFieldsUi.DisplayGroupNameSpec | src/ui/components/extra_fields.rs:194-199 | the display name is the first group with that id, and `"Default"` for no id or an unknown id |
| ExtraFieldsUi.KeepNonBlankClean | src/ui/components/extra_fields.rs:1204-1210 | the trim-and-filter stage keeps only non-empty, trimmed, comma-free items |
| ExtraFieldsUi.SplitMultiClean | src/ui/components/extra_fields.rs:1204-1210 | every item of `split_multi` is non-empty, trimmed and comma-free |
| ExtraFieldsUi.SplitMultiJoinAfter | src/ui/components/extra_fields.rs:1204-1210 | splitting leading blanks followed by `", "`-joined clean items gives the items back |
| ExtraFieldsUi.SplitMultiJoin | src/ui/components/extra_fields.rs:1204-1210 | `UpdateMulti` joins with `", "` and `EditValue` splits: on clean items the split gives back the list |
| ExtraFieldsUi.TrimmedOrNoneSpec | src/ui/components/extra_fields.rs:1265-1272 | `None` exactly for blank input, otherwise the trimmed text |
| ExtraFieldsUi.AppliedDraftSpec | src/ui/components/extra_fields.rs:1324-1342 | kind and value never change; a blank draft label keeps the old label; options are copied only for Select/Radio, units and unit only for Number |
| ExtraFieldsUi.ApplyDraftToField | src/ui/components/extra_fields.rs:1324-1342 | the in-place update yields the field described by `AppliedDraftSpec` |
| ExtraFieldsUi.ReassignedAt | src/ui/components/extra_fields.rs:587-600 | each field of the removed group is moved to the target id and every other field is untouched |
| ExtraFieldsUi.ReassignedSame | src/ui/components/extra_fields.rs:581-586 | moving fields from a group to itself (the single-group branch) changes nothing |
| ExtraFieldsUi.NameConflictAsWrittenMissesIdentical | src/ui/components/extra_fields.rs:1228-1236 | as written, a field labelled `"Ä"` does not conflict with the new label `"Ä"` |
| ExtraFieldsUi.NameConflictBlank | src/ui/components/extra_fields.rs:1229-1232 | a blank label never conflicts |
| ExtraFieldsUi.NameConflictIdentical | src/ui/components/extra_fields.rs:1228-1236 | a non-blank label conflicts with any other field with the same trimmed label |
| ExtraFieldsUi.NameConflictExcludesEdited | src/ui/components/extra_fields.rs:1233-1235 | the field being edited is excluded from the check |
| ExtraFieldsUi.AsciiLowerings | src/ui/components/extra_fields.rs:1229 | on ASCII text, Unicode lowercasing and ASCII lowercasing agree |
| ExtraFieldsUi.NameConflictAsciiAgrees | src/ui/components/extra_fields.rs:1228-1236 | on ASCII labels the check as written and the corrected one give the same answer |
| ExtraFieldsUi.CommitConflictKeepsEverything | src/ui/components/extra_fields.rs:496-504 | a conflicting label leaves the whole state unchanged (draft restored, dialog open) and reports the error "Field name must be unique" |
| ExtraFieldsUi.CommitCreateBlankAddsNothing | src/ui/components/extra_fields.rs:510-538 | creating with a blank label adds no field and closes the dialog |
| ExtraFieldsUi.CommitCreateAppends | src/ui/components/extra_fields.rs:510-538 | creating with a free label appends exactly one field with the trimmed label, the draft's kind, the old length as position, and the draft's group or else the lowest-position group |
| ExtraFieldsUi.CommitEditAppliesDraft | src/ui/components/extra_fields.rs:506-538 | editing applies the draft to that field only and closes the dialog |
| ExtraFieldsUi.DraftKindChangedSpec | src/ui/components/extra_fields.rs:406-417 | the kind changes only while creating a field, and then options, units, unit and the multi-value flag are cleared |
| ExtraFieldsUi.RemoveGroupOfMany | src/ui/components/extra_fields.rs:576-602 | with several groups, group `i` is removed, a Default group is ensured, and its fields move to that group's id; other fields keep their group |
| ExtraFieldsUi.RemoveOnlyGroup | src/ui/components/extra_fields.rs:578-587 | removing the only group renames it `"Default"`, keeps its id and position, and leaves the fields as they were |
| ExtraFieldsUi.RemoveGroupOutOfRange | src/ui/components/extra_fields.rs:577-601 | an out-of-range index changes nothing |
| ExtraFieldsUi.ImportLoadedSorts | src/ui/components/extra_fields.rs:316-325 | a loaded import replaces the groups and replaces the fields with a `cmp_key`-sorted permutation of them, and ends any group edit |
| ExtraFieldsUi.ExtraFieldsModel.constructor | src/ui/components/extra_fields.rs:11-20 | the default model is empty, with no dialog or edit in progress |
| ExtraFieldsUi.ExtraFieldsModel.Fields | src/ui/components/extra_fields.rs:79-81 | returns the fields |
| ExtraFieldsUi.ExtraFieldsModel.Groups | src/ui/components/extra_fields.rs:97-99 | returns the groups |
| ExtraFieldsUi.ExtraFieldsModel.EnsureDefaultGroup | src/ui/components/extra_fields.rs:141-152 | changes only the groups, as `EnsureDefaultReuses`/`EnsureDefaultAppends` state |
| ExtraFieldsUi.ExtraFieldsModel.LowestPositionGroupId | src/ui/components/extra_fields.rs:168-177 | changes only the groups and returns the id described by `LowestPositionSpec` |
| ExtraFieldsUi.ExtraFieldsModel.ReassignFields | src/ui/components/extra_fields.rs:596-600 | the for-loop moves every field of the removed group to the target id and changes nothing else |
| ExtraFieldsUi.ExtraFieldsModel.RemoveGroup | src/ui/components/extra_fields.rs:576-602 | the new state is the one described by `RemoveGroupOfMany`, `RemoveOnlyGroup` and `RemoveGroupOutOfRange` |
| ExtraFieldsUi.ExtraFieldsModel.CommitFieldModal | src/ui/components/extra_fields.rs:495-540 | the new state and event are the ones described by the `Commit*` lemmas |
| ExtraFieldsUi.ExtraFieldsModel.StartEditGroup | src/ui/components/extra_fields.rs:541-547 | an existing group is put into edit mode with its name in the buffer |
| ExtraFieldsUi.ExtraFieldsModel.CommitGroupName | src/ui/components/extra_fields.rs:561-570 | the edited group gets the trimmed buffer as its name, and the edit ends |
| ExtraFieldsUi.ExtraFieldsModel.OpenFieldModal | src/ui/components/extra_fields.rs:364-381 | an existing field opens the dialog with a draft copied from it |
| ExtraFieldsUi.ExtraFieldsModel.StartAddField | src/ui/components/extra_fields.rs:480-488 | opens the dialog on a default draft whose group is the requested one or the lowest-position group |
| ExtraFieldsUi.ExtraFieldsModel.RemoveField | src/ui/components/extra_fields.rs:489-494 | drops the field at an in-range index and changes nothing otherwise |
| ExtraFieldsUi.ExtraFieldsModel.LoadImport | src/ui/components/extra_fields.rs:316-334 | the new state is the one described by `ImportLoadedSorts`, with the "Imported N field(s) from …" event |
| ExtraFieldsUi.ExtraFieldsModel.UpdateGroups | src/ui/components/extra_fields.rs:541-602 | the group messages change the state as the group step function says |
| ExtraFieldsUi.ExtraFieldsModel.UpdateDialog | src/ui/components/extra_fields.rs:364-540 | the dialog messages change the state as the dialog step function says |
| ExtraFieldsUi.ExtraFieldsModel.EditField | src/ui/components/extra_fields.rs:335-363 | the field-edit messages change one in-range field, keeping `value_multi` in step with `value` for multi-value fields |
| ExtraFieldsUi.ExtraFieldsModel.EditDraft | src/ui/components/extra_fields.rs:388-479 | the draft messages change only the draft, and only while a draft exists |
| ExtraFieldsUi.ExtraFieldsModel.UpdateImport | src/ui/components/extra_fields.rs:304-334 | `ImportRequested` pushes one file-pick command; cancel and failure report their events; a load replaces the fields |
| ExtraFieldsUi.ExtraFieldsModel.Update | src/ui/components/extra_fields.rs:298-604 | every message changes the state, pushes the commands and returns the event of the `update` step function |
| ExtraFieldsUi.NameConflictAsWritten | src/ui/components/extra_fields.rs:1228-1236 | `name_conflict` as the program has it, Unicode lowercase of the key compared with `eq_ignore_ascii_case`; `NameConflictAsWrittenMissesIdentical` exhibits a conflict it misses |
| ExtraFieldsUi.NameConflict | src/ui/components/extra_fields.rs:1228-1236 | the intended `name_conflict`, another field's trimmed label equal ignoring case; `NameConflictIdentical`, `NameConflictBlank`, `NameConflictExcludesEdited` and `NameConflictAsciiAgrees` are its laws |
| ExtraFieldsUi.Step | src/ui/components/extra_fields.rs:298-604 | `update` as a value: new state, commands and feedback event per message; `CommitConflictKeepsEverything`, `CommitCreateAppends`, `CommitEditAppliesDraft`, `RemoveGroupOfMany` and `ImportLoadedSorts` state its arms |
| ExtraFieldsUi.NameConflictAsWrittenImpliesIntended | src/ui/components/extra_fields.rs:1228-1236 | every conflict the check as written reports, the intended check reports too, so the two differ only on labels the written check lets through |
| ExtraFieldsUi.NextId | src/ui/components/extra_fields.rs:145 | the largest group id (0 without groups) plus one, wrapped to 32 bits; `NextIdFresh` proves it exceeds every existing id unless the largest is already `i32::MAX` |
| ExtraFieldsUi.EnsuredDefault | src/ui/components/extra_fields.rs:141-152 | `ensure_default_group` as a value; `EnsureDefaultReuses`, `EnsureDefaultAppends` and `EnsureDefaultNamesId` prove an existing `"Default"` group is reused unchanged, otherwise one is appended with the next id at the next position, and the id returned is always a `"Default"` group's; `EnsuredDefaultKeepsIdsUnique` that ids stay unique |
| ExtraFieldsUi.LowestPosition | src/ui/components/extra_fields.rs:168-177 | `lowest_position_group_id` as a value; `LowestPositionSpec` proves it returns the id minimising `(position, id)` without changing the groups, and creates the Default group when there are none; `LowestPositionKeepsIdsUnique` that ids stay unique |
| ExtraFieldsUi.DisplayGroupName | src/ui/components/extra_fields.rs:194-199 | `display_group_name`; `DisplayGroupNameSpec` proves it is the name of the first group with that id, and `"Default"` for no id or an unknown one |
| ExtraFieldsUi.AddedGroup | src/ui/components/extra_fields.rs:548-555 | the `AddGroup` arm as a value; `AddGroupKeepsIdsUnique` proves the old groups stay a prefix and the new `"Group n"` group has an id unused before, so ids stay unique |
| ExtraFieldsUi.SplitMulti | src/ui/components/extra_fields.rs:1204-1210 | `split_multi`; `SplitMultiClean` proves every item is non-empty, trimmed and comma-free, and `SplitMultiJoin` that splitting clean items joined with `", "` gives them back |
| ExtraFieldsUi.AppliedDraft | src/ui/components/extra_fields.rs:1324-1342 | `apply_draft_to_field` as a value; `AppliedDraftSpec` proves kind and value never change, a blank draft label keeps the old label, and options and units change only for the kinds that use them |
| ExtraFieldsUi.Reassigned | src/ui/components/extra_fields.rs:596-600 | the loop moving the fields of a removed group; `ReassignedAt` proves each field of that group gets the target id and every other field is untouched, `ReassignedSame` that moving a group to itself changes nothing |
| ExtraFieldsUi.RemovedGroup | src/ui/components/extra_fields.rs:576-602 | the `RemoveGroup` arm as a value; `RemoveGroupOfMany`, `RemoveOnlyGroup` and `RemoveGroupOutOfRange` prove each branch, and `RemovedKeepsIdsFresh` that removing a group keeps ids unique and below `i32::MAX` |
| ExtraFieldsUi.CommittedFieldModal | src/ui/components/extra_fields.rs:495-540 | the `CommitFieldModal` arm as a value; `CommitConflictKeepsEverything`, `CommitCreateBlankAddsNothing`, `CommitCreateAppends` and `CommitEditAppliesDraft` prove a conflict changes nothing and reports an error, a blank new label adds nothing, a free one appends one field, and an edit changes only that field |
| ExtraFieldsUi.RemovedKeepsIdsFresh | src/ui/components/extra_fields.rs:576-602 | dropping one group keeps the ids unique and the largest below `i32::MAX` |
| ExtraFieldsUi.EnsuredDefaultKeepsIdsUnique | src/ui/components/extra_fields.rs:141-152 | with unique ids and room below `i32::MAX`, ensuring the Default group keeps ids unique |
| ExtraFieldsUi.LowestPositionKeepsIdsUnique | src/ui/components/extra_fields.rs:168-177 | with unique ids and room below `i32::MAX`, `lowest_position_group_id` keeps ids unique |
| ExtraFieldsUi.GroupStepKeepsIdsUnique | src/ui/components/extra_fields.rs:541-602 | every group message keeps group ids unique, given room below `i32::MAX` |
| ExtraFieldsUi.DialogStepKeepsIdsUnique | src/ui/components/extra_fields.rs:364-540 | every dialog message keeps group ids unique, given room below `i32::MAX` |
| ExtraFieldsUi.StepKeepsIdsUnique | src/ui/components/extra_fields.rs:298-604 | every message other than a loaded import keeps group ids unique, given unique ids whose largest is below `i32::MAX` |
| ExtraFieldsUi.CommittedGroupNameKeepsIds | src/ui/components/extra_fields.rs:561-570 | renaming a group keeps every id in place, so unique ids stay unique |
| ExtraFieldsUi.RemovedGroupKeepsIdsUnique | src/ui/components/extra_fields.rs:576-602 | removing a group keeps ids unique, given room below `i32::MAX`: the only group is renamed, or a Default group is ensured among the rest |
| MarkdownUi.Clamp | src/ui/components/markdown.rs:121-136 | `clamp` lands in the bounds and keeps a value already inside them |
| MarkdownUi.AtLeastOne | src/ui/components/markdown.rs:492-493 | `max(1)` is at least 1 and keeps a positive value |
| MarkdownUi.CharToByte | src/ui/components/markdown.rs:644-652 | a character index inside the text is kept, one past the end is clamped to the end |
| MarkdownUi.Selection | src/ui/components/markdown.rs:572-593 | the ends of the selection in order (either cursor end may come first) and exactly the characters between them; no cursor gives an empty selection at the end |
| MarkdownUi.TrimStartMatches | src/ui/components/markdown.rs:408 | `trim_start_matches('#')` removes a prefix and leaves a text that does not start with `#` |
| MarkdownUi.ReplacedSplices | src/ui/components/markdown.rs:631-639 | the selection is replaced by the insertion and nothing else: the text before and after is kept, both carets collapse right after the insertion, and no other field changes |
| MarkdownUi.BlockInsertionShape | src/ui/components/markdown.rs:605-622 | with `ensure_newline` the insertion ends in a line break, and starts with an extra one exactly when the text is non-empty and does not end in one |
| MarkdownUi.InlineInsertionShape | src/ui/components/markdown.rs:605-629 | without `ensure_newline` the insertion is prefix, body and suffix, with a leading space exactly when nothing is selected, the caret is collapsed and the character before it is not whitespace |
| MarkdownUi.InlineStyleWrapsSelection | src/ui/components/markdown.rs:605-634 | with a selection, an inline style wraps exactly the selected characters |
| MarkdownUi.EmptySelectionUsesPlaceholder | src/ui/components/markdown.rs:607-612 | with nothing selected, the placeholder is inserted |
| MarkdownUi.BlockEndsLine | src/ui/components/markdown.rs:616-639 | after a block insertion the caret sits right after a line break |
| MarkdownUi.InlineKinds | src/ui/components/markdown.rs:422-439 | exactly bold, italic, strikethrough, underline, link, image and inline code are inserted inline; every other kind, inline math included, gets its own line |
| MarkdownUi.HeadingContentSpec | src/ui/components/markdown.rs:405-415 | the cleaned heading text is non-empty and trimmed: `"Title"` or a suffix of the trimmed selection |
| MarkdownUi.HeadingLine | src/ui/components/markdown.rs:402-419 | (corrected) the level is clamped to 1..6 and stored; the selection becomes the line `"#" * level + " " + content + "\n"`, with a line break in front when the text does not end in one |
| MarkdownUi.IntendedReplaces | src/ui/components/markdown.rs:402-419 | the corrected heading is an `apply_style` splice of the cleaned content |
| MarkdownUi.LineReplaced | src/ui/components/markdown.rs:616-639 | a block insertion ending in `"\n"` gets only the leading line break |
| MarkdownUi.HeadingAsWrittenKeepsMarkers | src/ui/components/markdown.rs:402-419 | as written, the selected text `"#A"` as a level-1 heading becomes `"\n# #A\n"`; the intended result is `"\n# A\n"` |
| MarkdownUi.HeadingOverWholeText | src/ui/components/markdown.rs:402-419 | over a whole selected text, the corrected heading holds the cleaned text and the heading as written holds the selection itself |
| MarkdownUi.WholeTextReplaced | src/ui/components/markdown.rs:616-639 | a block insertion over a whole text without a final line break is that line break, the insertion and a closing line break |
| MarkdownUi.MarkedSelection | src/ui/components/markdown.rs:572-593 | a cursor from 2 back to 0 over `"#A"` selects `"#A"` |
| MarkdownUi.MarkedCleaned | src/ui/components/markdown.rs:405-409 | cleaning `"#A"` gives `"A"` |
| MarkdownUi.HeaderTextIs | src/ui/components/markdown.rs:498-518 | every header cell is `" Column k "` and holds no bar or line break |
| MarkdownUi.ColumnsAligned | src/ui/components/markdown.rs:498-541 | header, separator and body cells of a column all have the column's width |
| MarkdownUi.RowCells | src/ui/components/markdown.rs:510-541 | a table line split at `|` gives its cells between two empty ends: `|cells| + 1` bars and no line break |
| MarkdownUi.TableLineCount | src/ui/components/markdown.rs:491-544 | `table_snippet` has a header line, a separator line and `max(rows, 1)` blank body lines |
| MarkdownUi.TableLinesClean | src/ui/components/markdown.rs:491-548 | every table line has `max(cols, 1) + 1` bars and no line break |
| MarkdownUi.TableSnippetLines | src/ui/components/markdown.rs:491-548 | split at line breaks, the snippet is its table lines followed by one blank line |
| MarkdownUi.TableLineBars | src/ui/components/markdown.rs:491-548 | each table line has `max(cols, 1) + 1` bars |
| MarkdownUi.TableHeaderCells | src/ui/components/markdown.rs:498-518 | the header line's cells are `" Column 1 "` to `" Column c "` |
| MarkdownUi.BlockStartsLine | src/ui/components/markdown.rs:551-569 | the table goes after the selection, with a line break in front unless it already starts a line; the text around it is kept and both carets move past it |
| MarkdownUi.LeadStartsLine | src/ui/components/markdown.rs:557-559 | after the optional leading line break a line starts |
| MarkdownUi.StepValid | src/ui/components/markdown.rs:121-136 | every message keeps the heading level in 1..6, the table rows in 1..100 and the columns in 1..20 |
| MarkdownUi.ReachableValid | src/ui/components/markdown.rs:55-136 | every state reached from the default by any messages keeps those bounds |
| MarkdownUi.SettersClamp | src/ui/components/markdown.rs:126-134 | `SetHeadingLevel`, `SetTableRows` and `SetTableCols` store their argument clamped to 1..6, 1..100 and 1..20 and change nothing else |
| MarkdownUi.PushChars | src/ui/components/markdown.rs:514-538 | the padding loops append `n` copies of a character |
| MarkdownUi.AppendHeaderRow | src/ui/components/markdown.rs:509-522 | the header loop appends the header line: each label after `"| "`, padded to its column's width |
| MarkdownUi.AppendFilledRow | src/ui/components/markdown.rs:524-543 | the separator and body loops append a line of cells filled to their widths |
| MarkdownUi.ColumnLabels | src/ui/components/markdown.rs:498-506 | the labels `"Column 1"` to `"Column c"` and their widths |
| MarkdownUi.AppendBodyRows | src/ui/components/markdown.rs:533-544 | the body loop appends `rows` blank lines |
| MarkdownUi.BuildTableSnippet | src/ui/components/markdown.rs:491-548 | the nested loops build the snippet described by the table lemmas |
| MarkdownUi.MarkdownModel.constructor | src/ui/components/markdown.rs:55-69 | the default model: empty text, heading level 1, no cursor, a 2 by 2 table |
| MarkdownUi.MarkdownModel.ReplaceSelection | src/ui/components/markdown.rs:596-640 | the in-place splice of `apply_style`, as `ReplacedSplices` describes it |
| MarkdownUi.MarkdownModel.ApplyStyle | src/ui/components/markdown.rs:596-640 | `apply_style` on the model's fields |
| MarkdownUi.MarkdownModel.InsertHeading | src/ui/components/markdown.rs:402-419 | the corrected `insert_heading`, as `HeadingLine` describes it |
| MarkdownUi.MarkdownModel.ApplyStyleKind | src/ui/components/markdown.rs:422-439 | each style kind applies its prefix, suffix, placeholder and line mode |
| MarkdownUi.MarkdownModel.InsertAfterSelection | src/ui/components/markdown.rs:551-569 | the in-place splice of `insert_table_at_cursor`, as `BlockStartsLine` describes it |
| MarkdownUi.MarkdownModel.InsertTableAtCursor | src/ui/components/markdown.rs:551-569 | inserts the snippet of `table_snippet` after the selection |
| MarkdownUi.MarkdownModel.Update | src/ui/components/markdown.rs:121-136 | every message changes the fields as the step function, whose bounds `StepValid` keeps |
| MarkdownUi.HeadingInsertedAsWritten | src/ui/components/markdown.rs:402-419 | `insert_heading` as the program has it: the cleaned text reaches `apply_style` only as a placeholder; `HeadingAsWrittenKeepsMarkers` exhibits a selection whose `#` survive |
| MarkdownUi.HeadingInserted | src/ui/components/markdown.rs:402-419 | the intended `insert_heading`: the clamped level is kept and the selection replaced by one heading line of the cleaned text; `IntendedReplaces`, `HeadingLine` and `HeadingOverWholeText` are its laws |
| MarkdownUi.TableSnippet | src/ui/components/markdown.rs:491-548 | `table_snippet`: header, separator and at least one body row, each line ending in a break and a blank line after; `TableSnippetLines`, `TableLineCount`, `ColumnsAligned` and `TableHeaderCells` state its layout |
| MarkdownUi.Step | src/ui/components/markdown.rs:121-136 | `update` as a value, one arm per message; `StepValid` proves it keeps the editor state valid and `SettersClamp` that the setters clamp heading level, rows and columns |
| MarkdownUi.StyleOf | src/ui/components/markdown.rs:422-439 | the prefix, suffix, placeholder and line-break flag `apply_style_kind` passes for each of the fourteen style kinds; `InlineKinds` proves exactly bold, italic, strikethrough, underline, link, image and inline code are inserted inline |
| MarkdownUi.Insertion | src/ui/components/markdown.rs:605-629 | the text put in place of the selection; `BlockInsertionShape`, `InlineInsertionShape`, `InlineStyleWrapsSelection` and `EmptySelectionUsesPlaceholder` prove a block ends in a line break and starts a line, an inline insertion is prefix, body and suffix with a separating space exactly at a bare caret in a non-empty text not preceded by whitespace, a selection is wrapped as it is, and no selection gets the placeholder |
| MarkdownUi.Replaced | src/ui/components/markdown.rs:596-640 | the splice of `apply_style`; `ReplacedSplices` proves the text before and after the selection is kept and the caret collapses just after the insertion, and `BlockEndsLine` that after a block the caret follows a line break |
| MarkdownUi.HeadingContent | src/ui/components/markdown.rs:405-415 | the heading text made from a selection; `HeadingContentSpec` proves it is non-empty and trimmed, and either `"Title"` or a suffix of the trimmed selection, and `MarkedCleaned` gives `"#A"` to `"A"` |
| MarkdownUi.AddedAfterSelection | src/ui/components/markdown.rs:551-569 | the splice of `insert_table_at_cursor`; `BlockStartsLine` and `LeadStartsLine` prove the block goes right after the selection, the text around it is kept, and it starts a line |
| DateTimePicker.Clamp | src/ui/components/datetime_picker.rs:13-57 | `clamp` lands in the bounds, gives a bound for a value outside them, and keeps a value inside |
| DateTimePicker.DaysInMonth | src/ui/components/datetime_picker.rs:129-131 | a month of the proleptic Gregorian calendar has 28 to 31 days |
| DateTimePicker.FromYmd | src/ui/components/datetime_picker.rs:129-130 | `from_ymd_opt` succeeds exactly for an existing calendar date, and gives that date |
| DateTimePicker.AndHm | src/ui/components/datetime_picker.rs:131 | `and_hms_opt(h, m, 0)` succeeds exactly for an hour in 0..23 and a minute in 0..59 |
| DateTimePicker.FormatTwo | src/ui/components/datetime_picker.rs:11-14 | `format_two` gives exactly two digits whose value is `n` clamped to 0..99 |
| DateTimePicker.FormatTwoClamps | src/ui/components/datetime_picker.rs:11-14 | negative values read `"00"`, values above 99 read `"99"`, and two-digit values read as their decimal text |
| DateTimePicker.SettersTouchOneField | src/ui/components/datetime_picker.rs:53-57 | `SetDate` stores the date, `SetHour` the hour clamped to 0..23 and `SetMinute` the minute clamped to 0..59, each leaving the other fields unchanged |
| DateTimePicker.SetNowReadsClock | src/ui/components/datetime_picker.rs:147-152 | `SetNow` replaces all three fields with the clock's reading |
| DateTimePicker.StepValid | src/ui/components/datetime_picker.rs:53-60 | every message keeps the hour in 0..23 and the minute in 0..59 |
| DateTimePicker.ReachableValid | src/ui/components/datetime_picker.rs:26-60 | from the default picker, every sequence of messages keeps both in range |
| DateTimePicker.ConversionErrors | src/ui/components/datetime_picker.rs:121-144 | the errors in order: `"Hour must be 0-23"` exactly for a bad hour, `"Minute must be 0-59"` exactly for a good hour and bad minute, never the calendar error, and the local-time error exactly when the zone gives no single offset |
| DateTimePicker.ConversionReadsBack | src/ui/components/datetime_picker.rs:121-144 | a successful conversion, shifted back by the zone's offset, falls on the chosen day, hour and minute, on the full minute |
| DateTimePicker.ValidConverts | src/ui/components/datetime_picker.rs:128-144 | a valid picker with a single zone offset converts to the wall-clock time minus the offset, or the timestamp error when that is out of range |
| DateTimePicker.EpochIsDayZero | src/ui/components/datetime_picker.rs:139 | the day count is zero at 1970-01-01 |
| DateTimePicker.NextDayAddsOne | src/ui/components/datetime_picker.rs:139 | the next day of the same month is one day later |
| DateTimePicker.DateTimeModel.constructor | src/ui/components/datetime_picker.rs:26-36 | the default picker holds the clock's date, hour and minute |
| DateTimePicker.DateTimeModel.SetToNow | src/ui/components/datetime_picker.rs:147-152 | `set_to_now` stores the clock's reading |
| DateTimePicker.DateTimeModel.Update | src/ui/components/datetime_picker.rs:53-60 | every message changes the fields as the step function says |
| DateTimePicker.Step | src/ui/components/datetime_picker.rs:53-60 | `update` as a value; `SettersTouchOneField` and `SetNowReadsClock` state its arms and `StepValid` that it keeps the picker valid |
| DateTimePicker.ToOffsetDateTime | src/ui/components/datetime_picker.rs:121-144 | `to_offset_datetime`: hour, minute and date checked in that order, a local time with other than one offset refused, and the instant bounded to the representable range; `ConversionErrors`, `ValidConverts` and `ConversionReadsBack` are its laws |
| DateTimePicker.Default | src/ui/components/datetime_picker.rs:26-36 | `DateTimeModel::default`: the clock's date, hour and minute; `ReachableValid` proves every state reached from it keeps the hour in 0..23 and the minute in 0..59 |
| FileIcons.LowerOrEmpty | src/utils/file_icons.rs:20-29 | the extension and file name are ASCII-lowercased copies of the path's parts, or empty when the path has none |
| FileIcons.NormalizedMimeShape | src/utils/file_icons.rs:14-19 | the normalised MIME type holds no `;`, has no surrounding whitespace and no ASCII capital |
| FileIcons.NormalizeMimeIdempotent | src/utils/file_icons.rs:14-19 | normalising a normalised MIME type changes nothing |
| FileIcons.IconForIgnoresParameters | src/utils/file_icons.rs:13-19 | MIME parameters after the first `;` never change the icon |
| FileIcons.ImageRuleFirst | src/utils/file_icons.rs:31-38 | an `image/` MIME type is decided before every other rule, and only it yields an image icon |
| FileIcons.ImageIconByExtension | src/utils/file_icons.rs:32-37 | png, jpg/jpeg and svg each get their own image icon, anything else the generic image icon |
| FileIcons.CsvBeforeArchive | src/utils/file_icons.rs:48-53 | a `.csv` file is a CSV even when its MIME type or name is an archive's |
| FileIcons.ArchiveIconExactly | src/utils/file_icons.rs:31-53 | the archive icon is chosen exactly when `is_archive_mime` holds and no media, PDF or CSV rule matched first |
| FileIcons.JsonNameNotArchive | src/utils/file_icons.rs:157-162 | a name ending in `.json` is none of the compound tar names |
| FileIcons.JsonBeforeText | src/utils/file_icons.rs:84-137 | a `.json` file gets the code icon even with a generic `text/` MIME type |
| FileIcons.TextFamilyExcludes | src/utils/file_icons.rs:31-86 | a `text/` MIME type is no image, video or audio type, and no archive or office type except `text/csv` |
| FileIcons.PastEarlyRules | src/utils/file_icons.rs:31-60 | once the media, PDF, CSV and archive rules are passed, the document rules decide |
| FileIcons.PastDocumentRules | src/utils/file_icons.rs:54-86 | once the office and OpenDocument rules are passed, the code rules decide |
| FileIcons.DocumentIcon | src/utils/file_icons.rs:54-139 | the office and OpenDocument rules come before every later rule |
| FileIcons.CodeIcon | src/utils/file_icons.rs:84-139 | the data, markup and web rules come before the source-file rules |
| FileIcons.SourceIcon | src/utils/file_icons.rs:105-139 | the source-file rules come before plain text and the generic icon |
| FileIcons.ArchiveNameDecides | src/utils/file_icons.rs:157-162 | a compound tar name with an unrecognised MIME type is an archive unless its extension is `csv` |
| FileIcons.FileExactlyWhenUnmatched | src/utils/file_icons.rs:13-139 | every input yields an icon, and the generic one exactly when no rule recognises the MIME type, the extension or the file name |
| FileIcons.TopIsFile | src/utils/file_icons.rs:13-140 | the generic icon comes out exactly when the early rules fail and the document rules give it |
| FileIcons.DocumentIsFile | src/utils/file_icons.rs:54-139 | the document rules give the generic icon exactly when none of them matches and the code rules give it |
| FileIcons.CodeIsFile | src/utils/file_icons.rs:84-139 | the code rules give the generic icon exactly when none of them matches and the source rules give it |
| FileIcons.SourceIsFile | src/utils/file_icons.rs:105-139 | the source rules give the generic icon exactly when the MIME type is not textual and no source extension matches |
| FileIcons.IsArchiveMime | src/utils/file_icons.rs:142-163 | `is_archive_mime`: an archive MIME type, an archive extension, or a compound tar name; `ArchiveIconExactly` and `ArchiveNameDecides` state what it decides |
| FileIcons.IconOf | src/utils/file_icons.rs:13-140 | the rule chain on normalised inputs, first match wins; `ImageRuleFirst`, `CsvBeforeArchive`, `JsonBeforeText` and `FileExactlyWhenUnmatched` state its order |
| FileIcons.IconFor | src/utils/file_icons.rs:13-140 | `icon_for`: the chain applied to the normalised MIME type and the lowercased extension and name; `IconForIgnoresParameters` and `ImageIconByExtension` are its laws |
| FileIcons.NormalizeMime | src/utils/file_icons.rs:14-19 | the MIME type before its first `;`, trimmed and ASCII-lowercased; `NormalizedMimeShape`, `NormalizeMimeIdempotent` and `IconForIgnoresParameters` prove it holds no `;` or surrounding space, normalising twice changes nothing, and parameters never change the icon |
| FileIcons.ArchiveMimeType | src/utils/file_icons.rs:143-151 | the nine archive MIME types of `is_archive_mime`; `ArchiveIconExactly` proves they give the archive icon unless the MIME type is an image, video, audio, PDF or CSV type or the extension is `csv` |
| FileIcons.ArchiveExtension | src/utils/file_icons.rs:152-156 | the five archive extensions of `is_archive_mime`; `ArchiveIconExactly` proves they give the archive icon unless the MIME type is an image, video, audio, PDF or CSV type or the extension is `csv` |
| FileIcons.ArchiveName | src/utils/file_icons.rs:157-162 | the six compound tar suffixes of `is_archive_mime`; `ArchiveNameDecides` proves such a name with an unrecognised MIME type is an archive unless its extension is `csv`, and `JsonNameNotArchive` that a `.json` name is none of them |
| ElnNames.SanitizedIsSanitizedLike | src/logic/eln.rs:40-41 | the sanitizer's output is non-empty and uses allowed characters only |
| ElnNames.ArchiveNameShape | src/logic/eln.rs:40-44 | from a sanitizer-like base, the archive name is the lowered base plus `.eln`: allowed characters, no capitals, its own file name, extension `eln`, the lowered base as stem |
| ElnNames.SuggestedNameIsLoweredSanitized | src/logic/eln.rs:40-44 | `suggested_archive_name(t)` is the lowercased sanitizer output plus `.eln`; the `eln_entry` fallback never applies |
| ElnNames.SuggestedNameCharacters | src/logic/eln.rs:40-44 | the suggested name uses sanitizer characters only and no ASCII capitals |
| ElnNames.SuggestedNameAsPath | src/logic/eln.rs:40-44 | read as a path, the suggested name is its own file name, with extension `eln` and the lowered title as stem |
| ElnNames.SuggestedNameKeepsExtension | src/logic/eln.rs:40-84 | forcing `eln` onto a suggested name changes nothing |
| ElnNames.TransliterateStudyTitle | src/utils/sanitize_component.rs:19 | the modelled transliteration turns `"Ångström Study v1"` into `"Angstrom Study v1"` |
| ElnNames.CollapseSpaceJoin | src/utils/sanitize_component.rs:25-47 | a space between clean words becomes one `_` |
| ElnNames.CollapseWord | src/utils/sanitize_component.rs:25-47 | a clean word passes the mapping loop unchanged |
| ElnNames.CollapseStudyTitle | src/utils/sanitize_component.rs:25-47 | `"Angstrom Study v1"` collapses to `"Angstrom_Study_v1"` |
| ElnNames.FinishPlainName | src/utils/sanitize_component.rs:52-107 | a long name without dots, ending in a letter or digit, passes the cleanup, trailing-dot and reserved-name stages unchanged |
| ElnNames.StudyTitleSanitized | src/utils/sanitize_component.rs:18-108 | `"Ångström Study v1"` sanitizes to `"Angstrom_Study_v1"` |
| ElnNames.ExampleStudyTitle | src/logic/eln.rs:528-531 | `"Ångström Study v1"` is suggested as `"angstrom_study_v1.eln"` |
| ElnNames.EnsureExtension | src/logic/eln.rs:74-84 | a path whose extension already equals the requested one ignoring ASCII case is returned unchanged |
| ElnNames.EnsureExtensionResult | src/logic/eln.rs:74-84 | afterwards a path with a file name carries the extension, either the one it had (equal ignoring case) or exactly the requested one, and its stem is untouched |
| ElnNames.EnsureExtensionWithoutFileName | src/logic/eln.rs:74-84 | a path without a file name (empty, a root, `.` or `..`) is left as it is |
| ElnNames.EnsureExtensionIdempotent | src/logic/eln.rs:74-84 | forcing twice is forcing once |
| ElnNames.ExampleKeepsUppercaseExtension | src/logic/eln.rs:534-549 | `/tmp/report.ELN` keeps its upper-case extension |
| ElnNames.ExampleReplacesExtension | src/logic/eln.rs:534-549 | `report.txt` gets the extension `eln` |
| ElnNames.GenreToken | src/logic/eln.rs:62-69 | Experiment is written `"experiment"` and Resource `"resource"` |
| ElnNames.GenreTokenInjective | src/logic/eln.rs:62-69 | distinct genres have distinct tokens |
| ElnNames.SuggestedArchiveName | src/logic/eln.rs:40-44 | the suggested file name, the lowercased sanitized title with `.eln`; `SuggestedNameIsLoweredSanitized`, `SuggestedNameCharacters` and `SuggestedNameKeepsExtension` are its laws |
| Paths.FileName | src/logic/eln.rs:74-84 | `Path::file_name` as used by `ensure_extension`: a non-empty final component without `/` that is neither `.` nor `..`, found after trailing separators and `.` components are dropped |
| Paths.Extension | src/logic/eln.rs:74-84 | `Path::extension`: the text after the file name's last non-leading `.`, without `.` or `/` |
| Paths.FileStem | src/logic/eln.rs:115-122 | `Path::file_stem`: present exactly when the file name is, non-empty and without `/` |
| Paths.SetExtension | src/logic/eln.rs:74-84 | `PathBuf::set_extension`; `SetExtensionShape`, `FileNameOfSetExtension` and `SetExtensionHasExtension` prove what it gives |
| Paths.TrimTrailingSeparators | src/logic/eln.rs:74-84 | the path without trailing separators and trailing `.` components: a prefix of the path that ends in neither |
| Paths.SetExtensionShape | src/logic/eln.rs:74-84 | with a file name and a non-empty extension, `set_extension` keeps the directory part and puts `stem.ext` after it |
| Paths.FileNameOfSetExtension | src/logic/eln.rs:74-84 | after `set_extension` the file name is the old stem, `.` and the new extension |
| Paths.SetExtensionHasExtension | src/logic/eln.rs:74-84 | after `set_extension` with a plain extension, the extension is that one and the stem is unchanged |
| Paths.JoinedPathParts | src/logic/eln.rs:74-84 | a path ending in `stem.ext` after a separator has that file name, that extension and that stem |
| Paths.TrailingCurDirSkipped | src/logic/eln.rs:74-84 | a trailing `.` component is skipped: `foo/.` has file name `foo` and `set_extension` turns it into `foo.eln` |
| Rfc3339.ClosedFormMarch | src/logic/eln.rs:188-190 | the era-based closed form of the day count at March 1 |
| Rfc3339.ClosedFormMarchStep | src/logic/eln.rs:188-190 | from one March 1 to the next, the closed form grows by the year's length |
| Rfc3339.MarchStartIsClosedForm | src/logic/eln.rs:188-190 | the year-by-year day count agrees with the closed form for every year |
| Rfc3339.DaysFromCivilIsMonthStart | src/logic/eln.rs:188-190 | a date's day number is its month's first day number plus the day of the month, minus one |
| Rfc3339.MonthLength | src/logic/eln.rs:188-190 | every month is as long as the Gregorian calendar says |
| Rfc3339.YearUnique | src/logic/eln.rs:188-190 | only one year contains a given day number |
| Rfc3339.MonthUnique | src/logic/eln.rs:188-190 | only one month of a year contains a given day number |
| Rfc3339.YearOfDay | src/logic/eln.rs:188-190 | every day number falls in a year |
| Rfc3339.CivilFromDays | src/logic/eln.rs:188-190 | every day number is the day number of a real calendar date |
| Rfc3339.DaysFromCivilInjective | src/logic/eln.rs:188-190 | a calendar date is the only one with its day number |
| Rfc3339.CivilFromDaysOfDate | src/logic/eln.rs:188-190 | the calendar date of a date's day number is that date |
| Rfc3339.FromUnixTimestamp | src/logic/eln.rs:188-190 | a Unix timestamp's UTC date and time of day are valid and give the timestamp back |
| Rfc3339.FromUnixTimestampOfDateTime | src/logic/eln.rs:188-190 | a valid date-time is recovered from its timestamp |
| Rfc3339.PadZero | src/logic/eln.rs:188-190 | zero padding gives exactly `width` digits whose value is `n` |
| Rfc3339.FormatIsDateTime | src/logic/eln.rs:188-190 | a formatted date-time is an RFC 3339 section 5.6 `date-time` of twenty characters ending in `Z`, whose fields read back as the date-time formatted |
| Rfc3339.FormatErrors | src/logic/eln.rs:188-190 | formatting fails exactly for years outside 0 to 9999, with the year error |
| Rfc3339.YearOfDayBound | src/logic/eln.rs:188-190 | a day's year is at least `y` exactly when the day is not before year `y` starts |
| Rfc3339.PickerTimestampsFormat | src/logic/eln.rs:188-190 | over the picker's timestamp range, formatting fails exactly before 0000-01-01T00:00:00Z and otherwise gives an RFC 3339 `date-time` |
| Rfc3339.Format | src/logic/eln.rs:188-190 | `format(&Rfc3339)` on a whole-second UTC date-time; `FormatIsDateTime` proves a result is an RFC 3339 section 5.6 `date-time` of 20 characters ending in `Z` whose fields read back as the input, and `FormatErrors` that it fails exactly for years outside 0 to 9999 |
| Rfc3339.FormatTimestamp | src/logic/eln.rs:188-190 | the timestamp as the exporter formats it; `PickerTimestampsFormat` proves that over the picker's range it fails exactly before year 0 and otherwise gives a `date-time`, and `ElnArchive.DatesAreRfc3339` that a successful export is dated with it |
| ElnExport.PresentAt | src/logic/eln.rs:345-424 | an object built from optional members with distinct keys: each key looks up its slot, and names at most one member |
| ElnExport.PresentAbsent | src/logic/eln.rs:345-424 | a key that is not among the slots names no member |
| ElnExport.Flag | src/logic/eln.rs:392-422 | a flag is written exactly when it is true |
| ElnExport.StringsOfStrArray | src/logic/eln.rs:352-383 | an array of strings written from a list reads back as the list |
| ElnExport.ValueToJson | src/logic/eln.rs:456-484 | the value is always a string, a number or an array |
| ElnExport.ValueToJsonCases | src/logic/eln.rs:456-484 | an array exactly for a multi-value field with values; otherwise an integer exactly for an Items/Experiments/Users field whose text parses as `i64`, and the text as a string in every other case, Number fields included |
| ElnExport.ValueToJsonImport | src/logic/eln.rs:456-484 | the import reads a written value back as the field's value and value list exactly when the round-trip condition holds |
| ElnExport.FieldKeysDistinct | src/logic/eln.rs:345-424 | the twelve member names of a field's object are distinct |
| ElnExport.FieldMembers | src/logic/eln.rs:345-424 | a field's object holds under each key its slot: the kind token; options and units only when non-empty; unit, position, description and group id when set; the four flags only when true |
| ElnExport.FieldObjectDecodes | src/logic/eln.rs:345-424 | every field's object decodes on import to the raw entry describing the field |
| ElnExport.KnownTokenTrimmed | src/models/extra_fields.rs:68-86 | the tokens of the known kinds have no surrounding whitespace |
| ElnExport.KindRoundTrip | src/logic/eln.rs:347-350 | a written kind is read back as itself exactly unless it is an unknown token that trimming or the kind table would change |
| ElnExport.GroupIdRoundTrip | src/logic/eln.rs:410-415 | a group id written as an integer is read back unchanged |
| ElnExport.ConvertRawOf | src/logic/eln.rs:333-446 | converting the raw entry of a field gives the field back exactly when the round-trip condition holds |
| ElnExport.FieldRoundTrip | src/logic/eln.rs:333-446 | export then import of one field: its object always decodes, and the field read back is the one written exactly when the round-trip condition holds |
| ElnExport.ReplaceKeySpec | src/logic/eln.rs:424 | replacing a key's value keeps the key count and gives the new value under that key |
| ElnExport.InsertSpec | src/logic/eln.rs:424 | `Map::insert`: the key holds the new value, once, and other keys are untouched |
| ElnExport.LastWithLabel | src/logic/eln.rs:424 | the last field with a label, or none exactly when no field has it |
| ElnExport.FieldsMembersLookup | src/logic/eln.rs:343-425 | the `extra_fields` map holds each label once, with the object of the last field that carries it |
| ElnExport.FieldsMembersDistinct | src/logic/eln.rs:343-425 | with distinct labels the map lists the fields in order |
| ElnExport.GroupJson | src/logic/eln.rs:337-341 | each group is an object (id and name; the position is not written) |
| ElnExport.MetadataRoot | src/logic/eln.rs:427-433 | the serialized document is an object |
| ElnExport.WithoutAbsentKey | src/models/extra_fields.rs:305-312 | removing a key that no entry has changes nothing |
| ElnExport.EntriesDecode | src/logic/eln.rs:343-425 | the map of fields with distinct labels decodes entry by entry, in order |
| ElnExport.ConvertRawEntry | src/models/extra_fields.rs:315-352 | a field that meets the round-trip condition is converted back from its raw entry |
| ElnExport.MapSeqInverse | src/logic/eln.rs:343-425 | mapping and then unmapping gives back every list on which the second map undoes the first |
| ElnExport.ConvertRawEntries | src/models/extra_fields.rs:315-356 | converting decoded entries gives back fields that each convert back |
| ElnExport.TwoMembers | src/logic/eln.rs:337-341 | both members of a two-member object with distinct keys are found |
| ElnExport.GroupDecodes | src/logic/eln.rs:337-341 | a group's object decodes to its id and name |
| ElnExport.GroupsDecode | src/logic/eln.rs:334-342 | the group list decodes group by group |
| ElnExport.GroupsReadBack | src/models/extra_fields.rs:357-376 | groups numbered by their place in the list are read back as they are |
| ElnExport.RootMembers | src/logic/eln.rs:427-433 | the document holds the `elabftw` block with the groups and the `extra_fields` map |
| ElnExport.EnvelopeOfRoot | src/logic/eln.rs:427-433 | the document decodes to the fields' raw entries and the groups' raw entries |
| ElnExport.ImportOfRoot | src/logic/eln.rs:333-436 | the import of the document, given fields that convert back: the fields in `cmp_key` order and the groups |
| ElnExport.ExportImportRoundTrip | src/logic/eln.rs:333-436 | export then import: fields with distinct labels that each round-trip and groups numbered by their place come back as the same fields in `cmp_key` order and the same groups |
| ElnExport.ExportImportSorted | src/logic/eln.rs:333-436 | fields already in `cmp_key` order come back in the same order |
| ElnExport.ReconstructElabftwMetadata | src/logic/eln.rs:333-436 | the loops build the group list and the field map, and the result is the document's text |
| ElnExport.PvKeysDistinct | src/logic/eln.rs:285-308 | the seven member names of a `PropertyValue` node are distinct |
| ElnExport.PvId | src/logic/eln.rs:282 | the node id is `pv://` followed by the UUID |
| ElnExport.PvIdInjective | src/logic/eln.rs:282-315 | distinct UUIDs give distinct node ids |
| ElnExport.PropertyValueMembers | src/logic/eln.rs:285-308 | a field's node holds its id, type `PropertyValue`, label, kind token and value, its unit and description when set, and nothing else |
| ElnExport.MetadataPropertyMembers | src/logic/eln.rs:317-323 | the metadata node has five members: its id, type `PropertyValue`, `elabftw_metadata`, the description, and the document text as value |
| ElnExport.PresentLength | src/logic/eln.rs:317-323 | with every slot filled, there is one member per key |
| ElnExport.FieldIds | src/logic/eln.rs:281-283 | the node ids of the first `n` draws, in draw order |
| ElnExport.FieldNodes | src/logic/eln.rs:281-311 | field `i`'s node carries the id of draw `i` |
| ElnExport.EmitPropertyValues | src/logic/eln.rs:281-311 | the loop emits one node per field, with a freshly drawn id each, in field order |
| ElnExport.BuildExtraFieldsExport | src/logic/eln.rs:271-330 | `build_extra_fields_export`: the nodes in field order, and the metadata node drawn last with its id put in front |
| ElnExport.MetadataIdFirst | src/logic/eln.rs:314-316 | the metadata node's id is the first linked id |
| ElnExport.FieldIdLinked | src/logic/eln.rs:282-316 | field `i`'s node has the linked id at place `i + 1` |
| ElnExport.ExportIdsLinked | src/logic/eln.rs:271-330 | the linked ids are the nodes' ids, the metadata node's first, then each field's in order, so there is one more than there are fields |
| ElnExport.ExportNodes | src/logic/eln.rs:285-308 | each field's node carries its label, kind token, typed value, and unit and description when set |
| ElnExport.ExportIdsDistinct | src/logic/eln.rs:282-315 | draws that never repeat a UUID give linked ids that never repeat |
| ElnExport.ExportCarriesMetadata | src/logic/eln.rs:275-323 | the metadata node's value is the metadata text, and the document that text serializes imports as the exported fields in `cmp_key` order and the exported groups |
| ElnExport.ExportSpec | src/logic/eln.rs:271-330 | `build_extra_fields_export` as a value; `ExportImportRoundTrip` proves that importing it gives back the sorted fields and the groups, and `ExportIdsDistinct` and `ExportIdsLinked` state its layout |
| Json.Serialize | src/logic/eln.rs:444-444 | compact JSON serialisation, members in held order; `SerializeStringRoundTrip` proves a string serialises to a quoted literal that unescapes back to it |
| Json.Escape | src/logic/eln.rs:444-444 | serde_json's escaping of a string's characters; `UnescapeEscape` proves unescaping gives the text back, and `EscapeHasNoControl` that no control character is left |
| Json.Quote | src/logic/eln.rs:444-444 | a string literal, the escaped text in double quotes; `SerializeStringRoundTrip` proves a serialized string starts and ends with a quote and its inside unescapes to the string |
| ElnExport.FieldObject | src/logic/eln.rs:348-433 | the object of one field in the `extra_fields` map; `FieldMembers` proves what it holds under each key, `FieldObjectDecodes` that it decodes to the field's raw entry, and `FieldRoundTrip` that import gives the field back exactly when `RoundTrips` holds |
| ElnExport.FieldsMembers | src/logic/eln.rs:347-434 | the `extra_fields` map built by inserting each field's object under its label; `FieldsMembersLookup` proves each label is held once with the object of the last field carrying it, and `FieldsMembersDistinct` that distinct labels keep field order |
| ElnExport.MetadataText | src/logic/eln.rs:444-444 | the metadata document as compact JSON text; `ExportCarriesMetadata` proves the metadata node's value is this text and that the document it serializes is imported as the exported fields in `cmp_key` order and the exported groups |
| ElnExport.PropertyValue | src/logic/eln.rs:285-311 | the `PropertyValue` node of one field; `PropertyValueMembers` proves it holds the id, type, label, kind token and typed value, and the unit and description exactly when the field has them |
| ElnExport.MetadataProperty | src/logic/eln.rs:317-323 | the node carrying the metadata document; `MetadataPropertyMembers` proves it has exactly five members: its id, type `PropertyValue`, `elabftw_metadata`, the fixed description and the text |
| ElnArchive.DebugPath | src/logic/eln.rs:139-147 | a path written with `{:?}` is enclosed in double quotes |
| ElnArchive.RootPrefix | src/logic/eln.rs:115-121 | the root folder of the archive is a non-empty name followed by `/` |
| ElnArchive.AttachmentPaths | src/logic/eln.rs:152-153 | the archive path of each attachment is the experiment directory followed by its sanitized name, in attachment order |
| ElnArchive.AttachmentCheck | src/logic/eln.rs:137-150 | an attachment recorded as `"unavailable"` is never checked; otherwise only a failed re-hash or a differing digest is an error |
| ElnArchive.FirstFailure | src/logic/eln.rs:136-150 | the first attachment failing its check, with its error, and none exactly when every attachment passes |
| ElnArchive.Copied | src/logic/eln.rs:136-156 | the number of attachments written before the loop stops is at most their number |
| ElnArchive.Zip | src/logic/eln.rs:177-248 | a `json!` object lists its members in the order written |
| ElnArchive.LookupAt | src/logic/eln.rs:177-248 | a member whose key no later member repeats is what its key looks up |
| ElnArchive.ZipLookup | src/logic/eln.rs:177-248 | in an object with distinct keys each key looks up its own value |
| ElnArchive.IdRef | src/logic/eln.rs:204-222 | a reference `{"@id": id}` names the node `id` |
| ElnArchive.IdRefs | src/logic/eln.rs:208-211 | one reference per id, in order |
| ElnArchive.HasParts | src/logic/eln.rs:212-217 | `hasPart` refers to each file node by its id, in order |
| ElnArchive.FileNodes | src/logic/eln.rs:135-186 | one file node per attachment, in attachment order |
| ElnArchive.GraphHead | src/logic/eln.rs:250 | the graph starts with four nodes |
| ElnArchive.CopyAttachments | src/logic/eln.rs:135-186 | the attachment loop: with no failure every attachment is written and gets its file node; otherwise the first failure's error is returned, and exactly the attachments before it are written |
| ElnArchive.AssembleMetadata | src/logic/eln.rs:188-258 | the metadata document built from the timestamp, the body, the export and the file nodes |
| ElnArchive.BuildAndWriteArchive | src/logic/eln.rs:92-268 | `build_and_write_archive` computes the outcome the lemmas below describe |
| ElnArchive.DuplicateNamesRefusedFirst | src/logic/eln.rs:113-124 | clashing sanitized names are refused before the archive file is created, with the first repeated name in the error and no entries written; distinct names always get the file created |
| ElnArchive.FailedCheckStopsBeforeWrite | src/logic/eln.rs:136-156 | an attachment failing its check after all earlier ones passed stops the export with its error; the archive holds the directories and the earlier attachments, not the failing one |
| ElnArchive.FirstFailureAgrees | src/logic/eln.rs:137-150 | the first failure depends on the hasher only at the paths of attachments that are checked |
| ElnArchive.UnavailableNeverRehashed | src/logic/eln.rs:137-138 | `"unavailable"` attachments are never re-hashed: the outcome is the same for every hasher that agrees on the other attachments |
| ElnArchive.ArchiveSucceeds | src/logic/eln.rs:92-268 | the export succeeds exactly when the names are distinct, every attachment passes its check and the timestamp formats |
| ElnArchive.SuccessContents | src/logic/eln.rs:124-268 | a successful export writes the two directories, every attachment in order and the metadata file last, and the metadata is the document dated with the formatted timestamp |
| ElnArchive.EntrySuffixes | src/logic/eln.rs:121-260 | entry names made of one root prefix and distinct suffixes are distinct |
| ElnArchive.EntrySuffixList | src/logic/eln.rs:121-260 | the entries after the root prefix: nothing, `experiment/`, each attachment under it, and the metadata file |
| ElnArchive.SuffixesDistinct | src/logic/eln.rs:121-260 | with distinct non-empty sanitized names those suffixes are distinct |
| ElnArchive.EntriesWritten | src/logic/eln.rs:130-260 | past the guard, the archive holds the directories, the attachments written before any failure and, on success, the metadata file |
| ElnArchive.EntriesAsSuffixes | src/logic/eln.rs:121-260 | every entry is the root prefix followed by its suffix |
| ElnArchive.EntriesAsSuffixesOver | src/logic/eln.rs:121-260 | the same for any directory and metadata name |
| ElnArchive.EntriesDistinct | src/logic/eln.rs:113-260 | with distinct non-empty sanitized names no entry is started twice, whether the export succeeds or stops |
| ElnArchive.KeysDistinct | src/logic/eln.rs:177-248 | each node's member names are distinct |
| ElnArchive.FileNodeMembers | src/logic/eln.rs:177-184 | an attachment's node holds its id under `./experiment/`, type `File`, its name, MIME type, size in decimal and digest |
| ElnArchive.GraphLayout | src/logic/eln.rs:250-253 | the `@graph` order: descriptor, root, experiment, organization, one file node per attachment in order, the metadata node, then one node per extra field in field order |
| ElnArchive.ConcatLayout | src/logic/eln.rs:250-253 | where the parts land in the concatenated graph |
| ElnArchive.FileIds | src/logic/eln.rs:154 | the file ids are `./experiment/` followed by the sanitized names, in attachment order |
| ElnArchive.ExperimentMemberAt | src/logic/eln.rs:203-223 | each member of the experiment node holds the value written for it |
| ElnArchive.HasPartListsFiles | src/logic/eln.rs:154-217 | the experiment's `hasPart` lists the file ids in attachment order, and each file node carries the id listed for it |
| ElnArchive.VariableMeasuredLinks | src/logic/eln.rs:208-211 | `variableMeasured` links the metadata node first and then each field's node in field order: one more link than fields |
| ElnArchive.ExperimentDescribed | src/logic/eln.rs:191-223 | the experiment node holds its id, the title, the body as rendered HTML or as Markdown with the matching MIME type, both dates, the organization as author, the genre token and the keywords |
| ElnArchive.CrateStructure | src/logic/eln.rs:225-258 | the descriptor `ro-crate-metadata.json` is a `CreativeWork` about `./` conforming to RO-Crate 1.2; the root `./` is a `Dataset` whose part is the experiment; the organization is a node; the document has the RO-Crate 1.2 context and the graph |
| ElnArchive.DatesAreRfc3339 | src/logic/eln.rs:188-190 | a successful export dates the crate with an RFC 3339 `date-time` in UTC |
| ElnArchive.ArchiveSpec | src/logic/eln.rs:92-268 | what `build_and_write_archive` does: duplicate names refused before anything is created, the directories, each attachment checked then written until the first failure, the timestamp, and the metadata entry last; `ArchiveSucceeds`, `FailedCheckStopsBeforeWrite`, `SuccessContents` and `CrateStructure` are its laws |
| ElnArchive.ErrorMessage | src/logic/eln.rs:139-190 | the text of each error `build_and_write_archive` returns: the duplicate-name message, `Failed to rehash attachment` with the path, `Attachment modified since it was added:` with the path and both digests, and `Failed to format performed_at timestamp:` with the cause |
| ElnArchive.FileNode | src/logic/eln.rs:178-185 | the `File` node of an attachment; `FileNodeMembers` proves it holds its id under `./experiment/`, type `File`, its name, MIME type, decimal size and digest |
| ElnArchive.ExperimentNode | src/logic/eln.rs:203-224 | the experiment's `Dataset` node; `ExperimentDescribed`, `HasPartListsFiles` and `VariableMeasuredLinks` prove it holds the title, body and encoding, dates, author, genre and keywords, lists every file node's id in order, and links the metadata node first and then each field's node |
| ElnArchive.RootNode | src/logic/eln.rs:226-232 | the Root Data Entity; `CrateStructure` proves it is the `Dataset` `./` named by the title whose one part is the experiment |
| ElnArchive.Descriptor | src/logic/eln.rs:234-241 | the RO-Crate Metadata Descriptor; `CrateStructure` proves it is the `CreativeWork` `ro-crate-metadata.json` about `./`, conforming to RO-Crate 1.2, dated by the timestamp and published by the organization |
| ElnArchive.Organization | src/logic/eln.rs:243-248 | the publishing organization; `CrateStructure` proves its id is the one the descriptor and the experiment refer to and its type is `Organization` |
| ElnArchive.Graph | src/logic/eln.rs:250-253 | the `@graph`; `GraphLayout` proves its order: descriptor, root, experiment, organization, one file node per attachment, the metadata node, then one node per field |
| ElnArchive.Document | src/logic/eln.rs:255-258 | the metadata document; `CrateStructure` proves it holds the RO-Crate 1.2 context and the graph, and `DatesAreRfc3339` that a successful export writes it with an RFC 3339 timestamp |
| Mvu.TranslateAttachments | src/mvu/mod.rs:119-133 | each attachments command becomes the matching root command, one for one and in order |
| Mvu.TranslateExtraFields | src/mvu/mod.rs:177-181 | each extra-fields command becomes one `PickExtraFieldsFile`, one for one |
| Mvu.FirstInvalidField | src/mvu/mod.rs:300-311 | none exactly when every field passes `validate_field`; otherwise the index of the first failing field and its reason |
| Mvu.SurfacedFeedback | src/mvu/mod.rs:270-275 | the status becomes the message; the error becomes it only for an error and keeps its value otherwise; nothing else changes, and an error always has a status line |
| Mvu.SaveCancelledStatus | src/mvu/mod.rs:188 | a cancelled save sets the status to "Save cancelled.", keeps the error and pushes no command |
| Mvu.DismissErrorClears | src/mvu/mod.rs:110 | dismissing clears the error and changes nothing else |
| Mvu.SaveCompletedFeedback | src/mvu/mod.rs:189-192 | a saved archive is reported as a status naming the path; a failure becomes both status and error with the failure prefix; nothing is pushed |
| Mvu.AttachmentsCommandRoundTrip | src/mvu/mod.rs:119-133 | every attachments command can be read back from its root command, and hashing and thumbnail commands are never retries |
| Mvu.TranslateAttachmentsInjective | src/mvu/mod.rs:119-133 | translation loses nothing: two command lists with the same translation are equal |
| Mvu.AttachmentsRouted | src/mvu/mod.rs:115-135 | an attachments message updates the attachments and the feedback only, and pushes the component's commands translated and in order |
| Mvu.ThumbnailReadyForwarded | src/mvu/mod.rs:142-166 | `ThumbnailReady` behaves exactly as the attachments' own `ThumbnailReady` message |
| Mvu.LoadThumbnailEnqueues | src/mvu/mod.rs:395-413 | asking for a thumbnail pushes exactly one non-retry `LoadThumbnail` for that path and leaves the state unchanged |
| Mvu.ThumbnailDecodedIgnored | src/mvu/mod.rs:136-141 | `ThumbnailDecoded` changes nothing and pushes nothing |
| Mvu.ExtraFieldsRouted | src/mvu/mod.rs:172-182 | an extra-fields message updates the fields and the feedback only, and pushes one `PickExtraFieldsFile` per component command |
| Mvu.KeywordsRouted | src/mvu/mod.rs:167-171 | a keywords message updates the keywords and the feedback only, and pushes nothing |
| Mvu.MarkdownRouted | src/mvu/mod.rs:112-114 | an editor message changes the editor's state only and pushes nothing |
| Mvu.DateTimeRouted | src/mvu/mod.rs:183-183 | a picker message changes the picker's state only and pushes nothing |
| Mvu.PendingCommandsUntouched | src/mvu/mod.rs:106-194 | no message changes the count of queued commands |
| Mvu.BlankTitleRefused | src/mvu/mod.rs:279-282 | a blank title gives "Please enter a title." as status and error, and nothing is enqueued |
| Mvu.SaveChecksInOrder | src/mvu/mod.rs:279-298 | the checks run in order (title, then date and time with the "Invalid date/time: " prefix, then unique archive names) and the first failure is the error |
| Mvu.FirstInvalidFieldReported | src/mvu/mod.rs:300-311 | when the earlier checks pass, the error names the first invalid field's label and its reason |
| Mvu.SaveAccepted | src/mvu/mod.rs:278-325 | a save is accepted exactly when the title is non-blank, the date and time resolve, the archive names are distinct and every field is valid |
| Mvu.SaveEnqueued | src/mvu/mod.rs:184-186 | an accepted save pushes exactly one `SaveArchive` with the payload and leaves the state unchanged |
| Mvu.SavePayloadContents | src/mvu/mod.rs:313-324 | the payload has the trimmed non-blank title, the trimmed body, the attachments, the picker's instant, the fields and groups as they are and the normalized keywords; its archive names are distinct, its fields valid and its keywords unique ignoring ASCII case |
| Mvu.SaveRefused | src/mvu/mod.rs:187 | a refused save surfaces the error as status and error, and pushes nothing |
| Mvu.FieldMessageNamesField | src/mvu/mod.rs:302-308 | a field's message begins "Field '" followed by its label, and different reasons give different messages |
| Mvu.AttachmentsStepValid | src/mvu/mod.rs:115-135 | the attachments arm keeps the application invariant |
| Mvu.KeywordsStepValid | src/mvu/mod.rs:167-171 | the keywords arm keeps the application invariant |
| Mvu.ComponentStepValid | src/mvu/mod.rs:112-183 | every arm that hands a message to a component keeps the application invariant |
| Mvu.StepValid | src/mvu/mod.rs:106-194 | every message keeps the application invariant: an error always has a status, and each component keeps its own invariant |
| Mvu.ReachableValid | src/mvu/mod.rs:22-47 | every state reachable from the default model by any sequence of messages satisfies the application invariant |
| Mvu.PushAttachmentCommands | src/mvu/mod.rs:119-133 | the loop appends the translated commands after the commands already queued |
| Mvu.PushExtraFieldsCommands | src/mvu/mod.rs:177-181 | the loop appends one `PickExtraFieldsFile` per command after the commands already queued |
| Mvu.FindInvalidField | src/mvu/mod.rs:300-311 | the loop over the fields returns the first failing field and its reason, or none when every field is valid |
| Mvu.AppModel.constructor | src/mvu/mod.rs:22-47 | the new model is the default application state, with the picker at the clock's reading |
| Mvu.AppModel.SurfaceEvent | src/mvu/mod.rs:270-275 | the new state is the old one with the event surfaced |
| Mvu.AppModel.ValidateForSave | src/mvu/mod.rs:278-325 | the result is the save validation of the current state |
| Mvu.AppModel.RequestSave | src/mvu/mod.rs:184-187 | the new state and the pushed commands are those of the save step |
| Mvu.AppModel.UpdateAttachments | src/mvu/mod.rs:115-135 | the new state and the pushed commands are those of the attachments arm |
| Mvu.AppModel.UpdateKeywords | src/mvu/mod.rs:167-171 | the new state is that of the keywords arm |
| Mvu.AppModel.UpdateExtraFields | src/mvu/mod.rs:172-182 | the new state and the pushed commands are those of the extra-fields arm |
| Mvu.AppModel.ReportSaved | src/mvu/mod.rs:189-192 | the new state is that of the save-completed arm |
| Mvu.AppModel.Update | src/mvu/mod.rs:106-194 | the new state and the commands pushed after the queued ones are those of one reducer step, so every property of the step holds of the object |
| Mvu.AppModel.UpdateComponent | src/mvu/mod.rs:112-183 | the new state and the pushed commands are those of the component arms |
| Mvu.AppModel.UpdateRoot | src/mvu/mod.rs:106-194 | the new state and the pushed commands are those of the arms the root model handles itself |
| Mvu.SaveValidation | src/mvu/mod.rs:278-325 | `validate_for_save`: blank title, then date-time, then archive names, then extra fields, the first failure being the error; `SaveChecksInOrder`, `BlankTitleRefused`, `FirstInvalidFieldReported` and `SavePayloadContents` state its cases |
| Mvu.Step | src/mvu/mod.rs:106-194 | `update` as a value: component messages routed to their component, the rest handled at the root; `StepValid` proves it keeps the application state valid and the `*Routed` and `Save*` lemmas state its arms |
| Mvu.Default | src/mvu/mod.rs:22-47 | `AppModel::default()`: empty components, the picker at the clock's reading, no feedback and no queued commands; `ReachableValid` proves every state reached from it satisfies the application invariant |
| Mvu.Surfaced | src/mvu/mod.rs:270-275 | `surface_event`; `SurfacedFeedback` proves the status becomes the message, the error becomes it only for an error, nothing else changes, and an error is then never shown without a status |
| Mvu.FieldMessage | src/mvu/mod.rs:302-308 | the message for an invalid field; `FieldMessageNamesField` proves it starts with `Field '` and the label and differs between reasons, and `FirstInvalidFieldReported` that it is the save error for the first invalid field |
| Mvu.SaveStep | src/mvu/mod.rs:184-187 | the `SaveRequested` arm; `SaveEnqueued` proves an accepted save pushes one `SaveArchive` with the payload and changes nothing, and `SaveRefused` and `BlankTitleRefused` that a refused one surfaces its error and pushes nothing |
| Mvu.CompletedStep | src/mvu/mod.rs:189-192 | the `SaveCompleted` arm; `SaveCompletedFeedback` proves success becomes a status naming the path and failure both status and error with the failure prefix |
| Mvu.AttachmentsStep | src/mvu/mod.rs:115-135 | the attachments arm; `AttachmentsRouted` proves it changes only the attachments and the feedback and pushes the component's commands translated in order, and `AttachmentsStepValid` that it keeps the invariant |
| Mvu.KeywordsStep | src/mvu/mod.rs:167-171 | the keywords arm; `KeywordsRouted` proves it changes only the keywords and the feedback and pushes nothing, and `KeywordsStepValid` that it keeps the invariant |
| Mvu.ExtraFieldsStep | src/mvu/mod.rs:172-182 | the extra-fields arm; `ExtraFieldsRouted` proves it changes only the fields and the feedback and pushes one `PickExtraFieldsFile` per component command |
| Mvu.ComponentStep | src/mvu/mod.rs:112-183 | the arms handing a message to a component; `MarkdownRouted`, `DateTimeRouted` and `ThumbnailReadyForwarded` prove each message reaches its component only, and `ComponentStepValid` that the invariant is kept |
| Mvu.RootStep | src/mvu/mod.rs:106-194 | the arms the root model handles itself; `DismissErrorClears`, `ThumbnailDecodedIgnored`, `SaveCancelledStatus` and `SaveCompletedFeedback` prove those arms, and `PendingCommandsUntouched` that no message changes the queued-command count |

## Left out

- Sanitize.TransliterateChar: transliteration (`deunicode`, src/utils/sanitize_component.rs:19) is a foreign library, modelled by a table. ASCII is unchanged, the Latin-1 letters map to their base letters, and any other character becomes `_`. So for every character outside ASCII and the Latin-1 letters, the model differs from the program. This includes the Latin-1 signs and symbols: `(c)` for `©`, `2` for `²` and `x` for `×` in the program.
- Text.UnicodeLower, ExtraFieldsUi.NameConflict, ExtraFieldsUi.NameConflictAsWritten: `to_lowercase` maps the ASCII capitals and the Latin-1 capitals U+00C0 to U+00DE (except U+00D7) in the model, and leaves every other character unchanged. Other scripts' capitals, such as Cyrillic `Ж`, are not lowered. So for those labels neither predicate matches what the program computes.
- ExtraFieldsUi.Step: its `CommitFieldModal` arm refuses a label by the intended `NameConflict`. The program's `name_conflict` (src/ui/components/extra_fields.rs:497 and 1228-1236) is `NameConflictAsWritten`. The two agree on ASCII labels (`NameConflictAsciiAgrees`). Every conflict the program reports is reported by the model too (`NameConflictAsWrittenImpliesIntended`). Where a label has a non-ASCII capital, the model refuses duplicates the program lets through.
- ExtraFieldsUi.CommitConflictKeepsEverything: its precondition is the intended `NameConflict`, so for labels with non-ASCII capitals it covers duplicates the program accepts.
- ExtraFieldsUi.ExtraFieldsModel.CommitFieldModal: checks the intended `NameConflict` in place of the program's `name_conflict`, as `ExtraFieldsUi.Step` does.
- ExtraFieldsUi.CommittedFieldModal: refuses a label by the intended `NameConflict`, as `ExtraFieldsUi.Step` does; the program's check is `NameConflictAsWritten`.
- ExtraFieldsUi.StepKeepsIdsUnique, ExtraFieldsUi.DialogStepKeepsIdsUnique: stated of `Step` with the intended conflict check. A refused commit returns the state unchanged, so which labels are refused does not touch the groups. A loaded import is left out, because it replaces the groups with the imported ones, whose ids the import does not check.
- ExtraFieldsUi.ExtraFieldsModel.UpdateDialog: inherits the intended conflict check of `CommitFieldModal`.
- ExtraFieldsUi.ExtraFieldsModel.Update: inherits the intended conflict check of `CommitFieldModal`.
- MarkdownUi.Step: its `InsertHeading` arm is the intended `HeadingInserted`, which replaces the selection by the cleaned heading. The program's `insert_heading` (src/ui/components/markdown.rs:402-419) is `HeadingInsertedAsWritten`, which keeps a non-empty selection as it is: `#A` selected gives `\n# #A\n`.
- MarkdownUi.MarkdownModel.InsertHeading: computes the intended `HeadingInserted` in place of the program's `insert_heading`, as `MarkdownUi.Step` does.
- MarkdownUi.MarkdownModel.Update: inherits the intended heading insertion of `InsertHeading`.
- Mvu.Step: routes extra-field and editor messages to `ExtraFieldsUi.Step` and `MarkdownUi.Step`, so it inherits their intended conflict check and heading insertion.
- Mvu.ComponentStep: hands editor and extra-field messages to `MarkdownUi.Step` and `ExtraFieldsUi.Step`, with their intended heading insertion and conflict check.
- Mvu.AppModel.UpdateExtraFields: inherits the intended conflict check of `ExtraFieldsUi.ExtraFieldsModel.Update`.
- Mvu.AppModel.UpdateComponent: inherits the intended conflict check and heading insertion of the components it routes to.
- Mvu.AppModel.Update: inherits the intended conflict check and heading insertion of the components it routes to.
- Sanitizer idempotence is not claimed, because the code does not have it: `"a._.b"` gives `"a..b"`, and sanitizing again gives `"a.b"`.
- Keyword deduplication folds ASCII case only. This is what the code does (`to_ascii_lowercase`), so non-ASCII case variants are kept as distinct keywords.
- Stale results are not discarded, and no lock stops a second save while one is running. The code has neither, so the model claims neither. A `HashComputed` for a path removed earlier is added again.
- AttachmentsUi.Step: removal reports `"Attachment removed"` even for an index out of range, as the code does.
- The "empty after sanitization" error of the filename edit is unreachable, because the sanitizer never returns an empty name. The model keeps the branch but proves nothing about it.
- ExtraFieldsUi: `max + 1` on an `i32` group id and `len() as i32` wrap around, as in a release build (`Text.WrapI32`). The overflow panic of a debug build is not modelled.
- MarkdownUi.CharToByte: the model works on character indices, so `char_to_byte` is the clamp of a character index to the text length. UTF-8 byte offsets are not modelled.
- FileIcons.IsArchiveMime: a file name ending only in `.zip` is not an archive by name, as in the code. `.zip` files are caught by MIME type.
- ElnNames.SuggestedArchiveName: the `"eln_entry"` fallback of src/logic/eln.rs:42 is unreachable, because the sanitizer never returns an empty name.
- Rfc3339: only what the program produces is modelled, meaning a UTC instant with whole seconds. So only the `Z` form without a fraction is formatted. For a year outside 0..9999 the error text of the `time` crate is written as a constant.
- Json: objects keep their members in insertion order, and the lemmas speak only of member lookup, not of member order. serde_json's ordering feature is not modelled. Parsing JSON text and pretty-printing (`to_vec_pretty`) are not modelled.
- ElnExport.BuildExtraFieldsExport: the source returns a `Result` that is never an error (`to_string` on a `Value` cannot fail), so the model returns the value directly. `BTreeMap` iteration order does not matter after the fields are sorted. The metadata's values are rebuilt with `ValueToJson`.
- ElnArchive.BuildAndWriteArchive: the ZIP file is modelled as the list of entry names started in it. Compression, the byte-copy loop, creating the parent directory, and the I/O errors of src/logic/eln.rs:105-110, 124-133, 156-173 and 260-266 are left out. Once past the guard, the output file counts as created.
- ElnArchive: the code makes no all-or-nothing guarantee, so atomicity is not modelled. A failed re-hash leaves a partial file.
- ElnArchive: `Env.rehash` stands for `hash_file`, and `Env.renderHtml` stands for `markdown_to_html` (pulldown-cmark and ammonia). `Env.uuid` stands for `Uuid::new_v4` as "the k-th fresh id".
- ElnArchive.DebugPath approximates the `{:?}` rendering of a path as the path in double quotes.
- ElnArchive.ErrorMessage: an error carrying `anyhow` context is shown as the context text alone (how `{}` displays it). The underlying cause, for example the I/O error of a failed re-hash, is kept in the datatype but not in the message.
- Mvu:
  - The components' models are held as values inside the application state.
  - The decoded image of `ThumbnailDecoded` is omitted, because that arm does nothing with it.
  - Textures are opaque numbers.
  - `path.display()` is the path itself.
- Mvu.SaveValidation: `validate_field` at src/mvu/mod.rs:301 is the one in src/models/extra_fields.rs. Its reason codes are a datatype, and the catch-all message arm is kept for the e-mail reason. `to_domain` of an attachment item is the identity (src/ui/components/attachments.rs:32-40).
- `run_command` (src/mvu/mod.rs:197-267) is left out: it opens native dialogs, reads and writes files and decodes images. The UI worker threads, channels and `pending_commands` bookkeeping (src/ui/mod.rs:23-104) are left out too. The model keeps `pendingCommands` only as a field that the reducer does not touch.
- DateTimePicker: `Local::now` and the time-zone database are parameters. `SetNow` takes the clock's reading. The local-to-UTC conversion takes the offsets the zone allows at the chosen time.
- Foreign libraries are not modelled:
  - `mime_guess`;
  - SVG detection;
  - thumbnail decoding;
  - `format_bytes`, which uses floating point.
- The UI itself is not modelled: every egui `view`/`render_*` function, and src/ui/components/toggle.rs.
- `has_invalid_fields` (src/ui/components/extra_fields.rs:114) is a view helper and is not modelled. The same check is made by `validate_for_save`.
- src/ui.rs, src/editor.rs, src/attachments.rs, src/keywords.rs, src/archive.rs and src/datetime_picker.rs are not part of this model. They are not in the program's module tree (src/main.rs:6-11).

## Findings

| source | as written | input that shows it | evidently intended | confidence | as-written member | corrected member |
|---|---|---|---|---|---|---|
| src/ui/components/extra_fields.rs:1228-1236 | `name_conflict` lowers the new label with Unicode `to_lowercase`, then compares it with each existing label using `eq_ignore_ascii_case` | an existing field labelled `Ä` and a new label `Ä`: the lowered key `ä` does not equal `Ä` under ASCII case folding, so no conflict is reported | a label equal to an existing one, ignoring case, is a conflict | not executed | ExtraFieldsUi.NameConflictAsWrittenMissesIdentical | ExtraFieldsUi.NameConflictIdentical |
| src/ui/components/markdown.rs:402-419 | `insert_heading` computes the selection with its `#` markers stripped, but passes it only as the placeholder. `apply_style` uses the placeholder only when the selection is empty, so a selection keeps its markers | text `#A` fully selected, heading level 1: the inserted text is `\n# #A\n` | `\n# A\n`, a heading of the cleaned selection | not executed | MarkdownUi.HeadingAsWrittenKeepsMarkers | MarkdownUi.HeadingContentSpec |
