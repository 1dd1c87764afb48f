/**
 * `build_and_write_archive`: the decisions the assembler of an `.eln`
 * archive takes.  It refuses attachments whose archive names collide before
 * it creates the file, re-checks each attachment's SHA-256 before writing it,
 * and writes the RO-Crate metadata document last.  The ZIP file is modelled
 * by the names of the entries started in it, and the metadata by the JSON
 * document written as `ro-crate-metadata.json`.
 */
module ElnArchive {
  import opened Wrappers
  import opened Text
  import opened Json
  import opened Paths
  import opened Sanitize
  import opened DomainAttachment
  import opened DomainExtraFields
  import opened ElnExport
  import opened ElnNames
  import opened Rfc3339

  // ---------------------------------------------------------------------------
  // Inputs

  /** `BodyFormat`: how the body is stored in the crate. */
  datatype BodyFormat = Html | Markdown

  /** The arguments of `build_and_write_archive`; `performedAt` is a Unix timestamp at UTC. */
  datatype Request = Request(
    output: Path,
    title: string,
    body: string,
    attachments: seq<Attachment>,
    extraFields: seq<ExtraField>,
    extraGroups: seq<ExtraFieldGroup>,
    performedAt: int,
    genre: Genre,
    keywords: seq<string>,
    bodyFormat: BodyFormat)

  /**
   * What the assembler gets from outside: the SHA-256 of the file at a path
   * as it is now (or why it could not be read), the `k`-th UUID it draws,
   * and the Markdown-to-HTML renderer.
   */
  datatype Env = Env(rehash: Path -> Result<string, string>, uuid: nat -> string, renderHtml: string -> string)

  /** The failures the model keeps: the name guard, the integrity check and the timestamp. */
  datatype ArchiveError =
    | DuplicateName(message: string)
    | RehashFailed(path: Path, cause: string)
    | Modified(path: Path, expected: string, found: string)
    | TimestampFailed(cause: string)

  /** A path as `{:?}` writes it, with quotes and with backslashes and quotes escaped. */
  function DebugPath(p: Path): (r: string)
    ensures |r| >= 2 && r[0] == '"' && r[|r| - 1] == '"'
  {
    "\"" + DebugEscape(p) + "\""
  }

  function DebugEscape(s: string): string
  {
    if s == [] then []
    else (if s[0] == '\\' || s[0] == '"' then ['\\', s[0]] else [s[0]]) + DebugEscape(s[1..])
  }

  /** The text of the error `build_and_write_archive` returns. */
  function ErrorMessage(e: ArchiveError): string
  {
    match e
    case DuplicateName(m) => m
    case RehashFailed(p, _) => "Failed to rehash attachment " + DebugPath(p)
    case Modified(p, expected, found) =>
      "Attachment modified since it was added:\n  " + DebugPath(p) + "\n  expected sha256 " + expected
        + "\n  found sha256 " + found
    case TimestampFailed(c) => "Failed to format performed_at timestamp: " + c
  }

  /**
   * The result, whether the archive file was created, and the names of the
   * entries started in it, in order.
   */
  datatype Outcome = Outcome(result: Result<Json, ArchiveError>, created: bool, entries: seq<string>)

  // ---------------------------------------------------------------------------
  // Names inside the archive

  const ROOT_FALLBACK: string := "eln-entry"
  const METADATA_FILE: string := "ro-crate-metadata.json"
  const EXPERIMENT_ID: string := "./experiment/"

  /** The top folder: the sanitized file stem of the output path. */
  function RootFolder(output: Path): string
  {
    Sanitized(match FileStem(output) case Some(s) => s case None => ROOT_FALLBACK)
  }

  function RootPrefix(output: Path): (r: string)
    ensures |r| > 0 && r[|r| - 1] == '/'
  {
    RootFolder(output) + "/"
  }

  function ExperimentDir(output: Path): string
  {
    RootPrefix(output) + "experiment/"
  }

  /** The two directory entries, root first. */
  function Directories(output: Path): seq<string>
  {
    [RootPrefix(output), ExperimentDir(output)]
  }

  function MetadataEntry(output: Path): string
  {
    RootPrefix(output) + METADATA_FILE
  }

  /** The entry of each attachment under `dir`, in attachment order. */
  function AttachmentPaths(dir: string, atts: seq<Attachment>): (r: seq<string>)
    ensures |r| == |atts|
    ensures forall i :: 0 <= i < |atts| ==> r[i] == dir + atts[i].sanitizedName
  {
    seq(|atts|, i requires 0 <= i < |atts| => dir + atts[i].sanitizedName)
  }

  // ---------------------------------------------------------------------------
  // The integrity check

  /**
   * The check before an attachment is written: none for a digest recorded as
   * `"unavailable"`; otherwise a failed re-hash or a digest that differs from
   * the recorded one stops the export.
   */
  function AttachmentCheck(a: Attachment, rehash: Path -> Result<string, string>): (r: Option<ArchiveError>)
    ensures a.sha256 == Unavailable ==> r.None?
    ensures r.Some? ==> r.value.RehashFailed? || r.value.Modified?
  {
    if a.sha256 == Unavailable then None
    else
      match rehash(a.path)
      case Err(cause) => Some(RehashFailed(a.path, cause))
      case Ok(found) => if found != a.sha256 then Some(Modified(a.path, a.sha256, found)) else None
  }

  predicate Passes(a: Attachment, rehash: Path -> Result<string, string>)
  {
    AttachmentCheck(a, rehash).None?
  }

  predicate AllPass(atts: seq<Attachment>, rehash: Path -> Result<string, string>)
  {
    forall i :: 0 <= i < |atts| ==> Passes(atts[i], rehash)
  }

  /**
   * The first attachment that fails its check, with its error: none exactly
   * when every attachment passes.
   */
  function FirstFailure(atts: seq<Attachment>, rehash: Path -> Result<string, string>): (r: Option<(nat, ArchiveError)>)
    ensures r.None? <==> AllPass(atts, rehash)
    ensures r.Some? ==> && r.value.0 < |atts|
                        && AttachmentCheck(atts[r.value.0], rehash) == Some(r.value.1)
                        && forall j :: 0 <= j < r.value.0 ==> Passes(atts[j], rehash)
  {
    if atts == [] then None
    else
      match AttachmentCheck(atts[0], rehash)
      case Some(e) => Some((0, e))
      case None =>
        match FirstFailure(atts[1..], rehash)
        case None => None
        case Some(p) => Some((p.0 + 1, p.1))
  }

  /** The number of attachments written before the loop stops. */
  function Copied(atts: seq<Attachment>, rehash: Path -> Result<string, string>): (n: nat)
    ensures n <= |atts|
  {
    match FirstFailure(atts, rehash)
    case None => |atts|
    case Some(p) => p.0
  }

  // ---------------------------------------------------------------------------
  // The RO-Crate metadata

  /** An object whose members are `keys[i]: vals[i]`. */
  function Zip(keys: seq<string>, vals: seq<Json>): (m: seq<(string, Json)>)
    requires |keys| == |vals|
    ensures |m| == |keys|
    ensures forall i :: 0 <= i < |keys| ==> m[i] == (keys[i], vals[i])
  {
    seq(|keys|, i requires 0 <= i < |keys| => (keys[i], vals[i]))
  }

  /** A member whose key no later member repeats is what its key looks up. */
  lemma {:induction false} LookupAt(m: seq<(string, Json)>, i: nat)
    requires i < |m| && forall j :: i < j < |m| ==> m[j].0 != m[i].0
    ensures Lookup(m, m[i].0) == Some(m[i].1)
  {
    if i < |m| - 1 {
      LookupAt(m[..|m| - 1], i);
    }
  }

  lemma ZipLookup(keys: seq<string>, vals: seq<Json>, i: nat)
    requires |keys| == |vals| && DistinctKeys(keys) && i < |keys|
    ensures Lookup(Zip(keys, vals), keys[i]) == Some(vals[i])
  {
    LookupAt(Zip(keys, vals), i);
  }

  /** A reference to the node with id `id`. */
  function IdRef(id: string): (r: Json)
    ensures r.Obj? && Lookup(r.members, "@id") == Some(Str(id))
  {
    Obj([("@id", Str(id))])
  }

  function IdRefs(ids: seq<string>): (r: seq<Json>)
    ensures |r| == |ids| && forall i :: 0 <= i < |ids| ==> r[i] == IdRef(ids[i])
  {
    seq(|ids|, i requires 0 <= i < |ids| => IdRef(ids[i]))
  }

  /** `node["@id"].as_str().unwrap_or("./experiment/")`. */
  function NodeId(node: Json): string
  {
    if node.Obj? then
      match Lookup(node.members, "@id")
      case Some(Str(s)) => s
      case _ => EXPERIMENT_ID
    else EXPERIMENT_ID
  }

  function HasParts(nodes: seq<Json>): (r: seq<Json>)
    ensures |r| == |nodes| && forall i :: 0 <= i < |nodes| ==> r[i] == IdRef(NodeId(nodes[i]))
  {
    seq(|nodes|, i requires 0 <= i < |nodes| => IdRef(NodeId(nodes[i])))
  }

  const FILE_KEYS: seq<string> := ["@id", "@type", "name", "encodingFormat", "contentSize", "sha256"]

  /** The `File` node of an attachment. */
  function FileNode(a: Attachment): (r: Json)
    ensures r.Obj?
  {
    Obj(Zip(FILE_KEYS, [Str(EXPERIMENT_ID + a.sanitizedName), Str("File"), Str(a.sanitizedName), Str(a.mime),
                        Str(NatToString(a.size)), Str(a.sha256)]))
  }

  function FileNodes(atts: seq<Attachment>): (r: seq<Json>)
    ensures |r| == |atts| && forall i :: 0 <= i < |atts| ==> r[i] == FileNode(atts[i])
  {
    seq(|atts|, i requires 0 <= i < |atts| => FileNode(atts[i]))
  }

  /** The stored body and its MIME type: rendered HTML or the Markdown source. */
  function BodyOf(req: Request, renderHtml: string -> string): (string, string)
  {
    match req.bodyFormat
    case Html => (renderHtml(req.body), "text/html")
    case Markdown => (req.body, "text/markdown")
  }

  const ORG_ID: string := "https://elnpack.app/#organization"
  const CRATE_SPEC: string := "https://w3id.org/ro/crate/1.2"
  const CRATE_CONTEXT: string := CRATE_SPEC + "/context"
  const ELN_VERSION: int := 103

  const EXPERIMENT_KEYS: seq<string> := ["@id", "@type", "name", "encodingFormat", "text", "dateCreated",
    "dateModified", "author", "genre", "keywords", "variableMeasured", "hasPart"]

  /** The experiment's `Dataset` node. */
  function ExperimentNode(req: Request, body: (string, string), ts: string, ids: seq<string>, fileNodes: seq<Json>): (r: Json)
    ensures r.Obj?
  {
    Obj(Zip(EXPERIMENT_KEYS, [Str(EXPERIMENT_ID), Str("Dataset"), Str(req.title), Str(body.1), Str(body.0),
      Str(ts), Str(ts), IdRef(ORG_ID), Str(GenreToken(req.genre)), Arr(StrArray(req.keywords)),
      Arr(IdRefs(ids)), Arr(HasParts(fileNodes))]))
  }

  const ROOT_KEYS: seq<string> := ["@id", "@type", "name", "hasPart", "version"]

  /** The Root Data Entity. */
  function RootNode(title: string): (r: Json)
    ensures r.Obj?
  {
    Obj(Zip(ROOT_KEYS, [Str("./"), Str("Dataset"), Str(title), Arr([IdRef(EXPERIMENT_ID)]), Num(Int(ELN_VERSION))]))
  }

  const DESCRIPTOR_KEYS: seq<string> := ["@id", "@type", "about", "conformsTo", "dateCreated", "sdPublisher"]

  /** The RO-Crate Metadata Descriptor. */
  function Descriptor(ts: string): (r: Json)
    ensures r.Obj?
  {
    Obj(Zip(DESCRIPTOR_KEYS, [Str(METADATA_FILE), Str("CreativeWork"), IdRef("./"), IdRef(CRATE_SPEC), Str(ts),
                              IdRef(ORG_ID)]))
  }

  const ORG_KEYS: seq<string> := ["@id", "@type", "name", "url"]

  function Organization(): (r: Json)
    ensures r.Obj?
  {
    Obj(Zip(ORG_KEYS, [Str(ORG_ID), Str("Organization"), Str("elnPack"), Str("https://github.com/cbm343e/elnPack")]))
  }

  /** The extra-fields part of the crate, as `build_extra_fields_export` gives it. */
  function ExportOf(req: Request, uuid: nat -> string): ExtraFieldsExport
  {
    ExportSpec(req.extraFields, uuid, MetadataText(req.extraFields, req.extraGroups))
  }

  /**
   * The `@graph`: descriptor, root, experiment, organization, the file nodes,
   * the metadata node, the field nodes.
   */
  function Graph(req: Request, uuid: nat -> string, renderHtml: string -> string, ts: string): seq<Json>
  {
    var ex := ExportOf(req, uuid);
    GraphHead(req, uuid, renderHtml, ts) + FileNodes(req.attachments) + [ex.metadataProperty] + ex.propertyValues
  }

  /** The four nodes the graph starts with: descriptor, root, experiment, organization. */
  function GraphHead(req: Request, uuid: nat -> string, renderHtml: string -> string, ts: string): (r: seq<Json>)
    ensures |r| == 4
  {
    [Descriptor(ts), RootNode(req.title),
     ExperimentNode(req, BodyOf(req, renderHtml), ts, ExportOf(req, uuid).variableMeasuredIds, FileNodes(req.attachments)),
     Organization()]
  }

  function Document(req: Request, uuid: nat -> string, renderHtml: string -> string, ts: string): (r: Json)
    ensures r.Obj?
  {
    Obj([("@context", Str(CRATE_CONTEXT)), ("@graph", Arr(Graph(req, uuid, renderHtml, ts)))])
  }

  // ---------------------------------------------------------------------------
  // The assembler

  /**
   * What `build_and_write_archive` does: the name guard before the file is
   * created; the two directories; each attachment checked and then written,
   * stopping at the first that fails; the timestamp; and the metadata entry
   * last.
   */
  function ArchiveSpec(req: Request, env: Env): (out: Outcome)
  {
    AssembleSpec(req, env, FormatTimestamp(req.performedAt))
  }

  /** The same, given what formatting the timestamp gives. */
  function AssembleSpec(req: Request, env: Env, stamp: Result<string, string>): (out: Outcome)
  {
    match UniqueNamesCheck(req.attachments)
    case Err(m) => Outcome(Err(DuplicateName(m)), false, [])
    case Ok(_) =>
      match FirstFailure(req.attachments, env.rehash)
      case Some(p) => Outcome(Err(p.1), true, Written(req, env))
      case None =>
        match stamp
        case Err(c) => Outcome(Err(TimestampFailed(c)), true, Written(req, env))
        case Ok(ts) => Outcome(Ok(Document(req, env.uuid, env.renderHtml, ts)), true, Written(req, env) + [MetadataEntry(req.output)])
  }

  /** The directories, then the attachments written before the loop stops. */
  function Written(req: Request, env: Env): seq<string>
  {
    var o := req.output;
    Directories(o) + AttachmentPaths(ExperimentDir(o), req.attachments[..Copied(req.attachments, env.rehash)])
  }

  /** The attachment loop: check, then start the entry and record the file node. */
  method CopyAttachments(dir: string, atts: seq<Attachment>, rehash: Path -> Result<string, string>)
    returns (failure: Option<ArchiveError>, written: seq<string>, fileNodes: seq<Json>)
    ensures FirstFailure(atts, rehash).None? ==> failure.None? && fileNodes == FileNodes(atts)
    ensures FirstFailure(atts, rehash).Some? ==> failure == Some(FirstFailure(atts, rehash).value.1)
    ensures written == AttachmentPaths(dir, atts[..Copied(atts, rehash)])
  {
    written := [];
    fileNodes := [];
    for i := 0 to |atts|
      invariant written == AttachmentPaths(dir, atts[..i])
      invariant fileNodes == FileNodes(atts[..i])
      invariant forall k :: 0 <= k < i ==> Passes(atts[k], rehash)
    {
      var meta := atts[i];
      if meta.sha256 != Unavailable {
        var current := rehash(meta.path);
        if current.Err? {
          failure := Some(RehashFailed(meta.path, current.error));
          return;
        }
        if current.value != meta.sha256 {
          failure := Some(Modified(meta.path, meta.sha256, current.value));
          return;
        }
      }
      assert atts[..i + 1] == atts[..i] + [meta];
      written := written + [dir + meta.sanitizedName];
      fileNodes := fileNodes + [FileNode(meta)];
    }
    assert atts[..|atts|] == atts;
    failure := None;
  }

  /** The metadata document, built once every attachment is in. */
  method AssembleMetadata(req: Request, env: Env, ts: string, fileNodes: seq<Json>) returns (metadata: Json)
    requires fileNodes == FileNodes(req.attachments)
    ensures metadata == Document(req, env.uuid, env.renderHtml, ts)
  {
    var body := BodyOf(req, env.renderHtml);
    var ex := BuildExtraFieldsExport(req.extraFields, req.extraGroups, env.uuid);
    var experiment := ExperimentNode(req, body, ts, ex.variableMeasuredIds, fileNodes);
    var graph := [Descriptor(ts), RootNode(req.title), experiment, Organization()];
    graph := graph + fileNodes;
    graph := graph + [ex.metadataProperty];
    graph := graph + ex.propertyValues;
    metadata := Obj([("@context", Str(CRATE_CONTEXT)), ("@graph", Arr(graph))]);
  }

  /** `build_and_write_archive`. */
  method BuildAndWriteArchive(req: Request, env: Env) returns (out: Outcome)
    ensures out == ArchiveSpec(req, env)
  {
    var unique := AssertUniqueSanitizedNames(req.attachments);
    if unique.Err? {
      return Outcome(Err(DuplicateName(unique.error)), false, []);
    }
    var stem := FileStem(req.output);
    var rootFolder := SanitizeComponent(if stem.Some? then stem.value else ROOT_FALLBACK);
    var rootPrefix := rootFolder + "/";
    var experimentDir := rootPrefix + "experiment/";
    var entries := [rootPrefix, experimentDir];
    var failure, written, fileNodes := CopyAttachments(experimentDir, req.attachments, env.rehash);
    entries := entries + written;
    if failure.Some? {
      return Outcome(Err(failure.value), true, entries);
    }
    var timestamp := FormatTimestamp(req.performedAt);
    if timestamp.Err? {
      return Outcome(Err(TimestampFailed(timestamp.error)), true, entries);
    }
    var metadata := AssembleMetadata(req, env, timestamp.value, fileNodes);
    entries := entries + [rootPrefix + METADATA_FILE];
    out := Outcome(Ok(metadata), true, entries);
  }

  // ---------------------------------------------------------------------------
  // Properties: the guard, the integrity check and the entries

  /**
   * Colliding archive names are refused before the archive file is created,
   * with the message naming the first name that repeats; otherwise the file
   * is created.
   */
  lemma DuplicateNamesRefusedFirst(req: Request, env: Env, stamp: Result<string, string>)
    ensures var out := AssembleSpec(req, env, stamp);
      && (out.created <==> Distinct(Names(req.attachments)))
      && (!Distinct(Names(req.attachments)) ==>
            out.result == Err(DuplicateName(UniqueNamesCheck(req.attachments).error)) && out.entries == [])
  {
  }

  /**
   * An attachment that fails its check, after all earlier ones passed, stops
   * the export with its error: the archive holds the directories and the
   * earlier attachments only, and not the failing one.
   */
  lemma FailedCheckStopsBeforeWrite(req: Request, env: Env, stamp: Result<string, string>, i: nat)
    requires Distinct(Names(req.attachments))
    requires i < |req.attachments| && !Passes(req.attachments[i], env.rehash)
    requires forall j :: 0 <= j < i ==> Passes(req.attachments[j], env.rehash)
    requires req.attachments[i].sanitizedName != []
    ensures var out := AssembleSpec(req, env, stamp);
      && out.result == Err(AttachmentCheck(req.attachments[i], env.rehash).value)
      && out.created
      && out.entries == Directories(req.output) + AttachmentPaths(ExperimentDir(req.output), req.attachments[..i])
      && ExperimentDir(req.output) + req.attachments[i].sanitizedName !in out.entries
  {
    var atts, o := req.attachments, req.output;
    var r := FirstFailure(atts, env.rehash);
    assert r.Some?;
    assert Copied(atts, env.rehash) == i;
    var dir, name := ExperimentDir(o), atts[i].sanitizedName;
    var entries := AssembleSpec(req, env, stamp).entries;
    forall k | 0 <= k < |entries| ensures entries[k] != dir + name {
      if k == 0 {
        assert |entries[k]| < |dir + name|;
      } else if k == 1 {
        assert |entries[k]| < |dir + name|;
      } else {
        var j := k - 2;
        assert entries[k] == dir + atts[j].sanitizedName;
        assert Names(atts)[j] != Names(atts)[i];
        PrefixCancel(dir, atts[j].sanitizedName, name);
      }
    }
  }

  /** Equal strings with equal prefixes have equal remainders. */
  lemma PrefixCancel(p: string, a: string, b: string)
    ensures p + a == p + b <==> a == b
  {
    if p + a == p + b {
      assert (p + a)[|p|..] == a && (p + b)[|p|..] == b;
    }
  }

  /** Two lists of attachments checked against hashers that agree wherever a check re-hashes. */
  lemma {:induction false} FirstFailureAgrees(atts: seq<Attachment>, r1: Path -> Result<string, string>, r2: Path -> Result<string, string>)
    requires forall i :: 0 <= i < |atts| && atts[i].sha256 != Unavailable ==> r1(atts[i].path) == r2(atts[i].path)
    ensures FirstFailure(atts, r1) == FirstFailure(atts, r2)
  {
    if atts != [] {
      assert AttachmentCheck(atts[0], r1) == AttachmentCheck(atts[0], r2);
      FirstFailureAgrees(atts[1..], r1, r2);
    }
  }

  /**
   * Attachments whose digest is `"unavailable"` are never re-hashed: the
   * outcome depends on the hasher only at the paths of the other attachments.
   */
  lemma UnavailableNeverRehashed(req: Request, env: Env, stamp: Result<string, string>, rehash: Path -> Result<string, string>)
    requires forall i :: 0 <= i < |req.attachments| && req.attachments[i].sha256 != Unavailable ==>
      env.rehash(req.attachments[i].path) == rehash(req.attachments[i].path)
    ensures AssembleSpec(req, env, stamp) == AssembleSpec(req, env.(rehash := rehash), stamp)
  {
    FirstFailureAgrees(req.attachments, env.rehash, rehash);
  }

  /**
   * The export succeeds exactly when the names are distinct, every
   * attachment passes its check and the timestamp formats.
   */
  lemma ArchiveSucceeds(req: Request, env: Env, stamp: Result<string, string>)
    ensures AssembleSpec(req, env, stamp).result.Ok? <==>
      && Distinct(Names(req.attachments))
      && AllPass(req.attachments, env.rehash)
      && stamp.Ok?
  {
  }

  /**
   * A successful export returns the metadata document dated with the
   * formatted timestamp, after the directories, every attachment in order
   * and the metadata entry last.
   */
  lemma SuccessContents(req: Request, env: Env, stamp: Result<string, string>)
    requires AssembleSpec(req, env, stamp).result.Ok?
    ensures stamp.Ok?
    ensures AssembleSpec(req, env, stamp).result.value
      == Document(req, env.uuid, env.renderHtml, stamp.value)
    ensures AssembleSpec(req, env, stamp).entries
      == Directories(req.output) + AttachmentPaths(ExperimentDir(req.output), req.attachments) + [MetadataEntry(req.output)]
  {
    assert req.attachments[..|req.attachments|] == req.attachments;
  }

  /** Entry names `root + suffix` are distinct when their suffixes are. */
  lemma EntrySuffixes(root: string, suffixes: seq<string>, entries: seq<string>)
    requires |entries| == |suffixes| && Distinct(suffixes)
    requires forall k :: 0 <= k < |entries| ==> entries[k] == root + suffixes[k]
    ensures Distinct(entries)
  {
    forall a, b | 0 <= a < b < |entries| ensures entries[a] != entries[b] {
      PrefixCancel(root, suffixes[a], suffixes[b]);
    }
  }

  /** The suffix of each entry after the root prefix. */
  function EntrySuffixList(atts: seq<Attachment>, n: nat, metadata: bool): (r: seq<string>)
    requires n <= |atts|
    ensures |r| == 2 + n + (if metadata then 1 else 0)
    ensures r[0] == "" && r[1] == "experiment/"
    ensures forall j :: 0 <= j < n ==> r[2 + j] == "experiment/" + atts[j].sanitizedName
    ensures metadata ==> r[2 + n] == METADATA_FILE
  {
    ["", "experiment/"] + AttachmentPaths("experiment/", atts[..n]) + (if metadata then [METADATA_FILE] else [])
  }

  lemma SuffixesDistinct(atts: seq<Attachment>, n: nat, metadata: bool)
    requires n <= |atts| && Distinct(Names(atts))
    requires forall j :: 0 <= j < |atts| ==> atts[j].sanitizedName != []
    ensures Distinct(EntrySuffixList(atts, n, metadata))
  {
    var s := EntrySuffixList(atts, n, metadata);
    forall a, b | 0 <= a < b < |s| ensures s[a] != s[b] {
      if a == 0 {
        assert |s[b]| > 0 by {
          if b == 1 {
          } else if b < 2 + n {
            assert s[b] == "experiment/" + atts[b - 2].sanitizedName;
          } else {
            assert s[b] == METADATA_FILE;
          }
        }
      } else if b < 2 + n {
        if a == 1 {
          assert |s[b]| > |s[a]| by {
            assert s[b] == "experiment/" + atts[b - 2].sanitizedName;
          }
        } else {
          assert Names(atts)[a - 2] != Names(atts)[b - 2];
          PrefixCancel("experiment/", atts[a - 2].sanitizedName, atts[b - 2].sanitizedName);
        }
      } else {
        assert s[b] == METADATA_FILE;
        assert s[a][0] == 'e';
      }
    }
  }

  /** The entries of an export that got past the guard, written out. */
  lemma EntriesWritten(req: Request, env: Env, stamp: Result<string, string>)
    requires Distinct(Names(req.attachments))
    ensures var out := AssembleSpec(req, env, stamp);
      out.entries == Directories(req.output)
        + AttachmentPaths(ExperimentDir(req.output), req.attachments[..Copied(req.attachments, env.rehash)])
        + (if out.result.Ok? then [MetadataEntry(req.output)] else [])
  {
  }

  /** Every entry is the root prefix followed by its suffix. */
  lemma EntriesAsSuffixes(root: string, atts: seq<Attachment>, n: nat, metadata: bool, entries: seq<string>)
    requires n <= |atts|
    requires entries == [root, root + "experiment/"] + AttachmentPaths(root + "experiment/", atts[..n])
                        + (if metadata then [root + METADATA_FILE] else [])
    ensures |entries| == |EntrySuffixList(atts, n, metadata)|
    ensures forall k :: 0 <= k < |entries| ==> entries[k] == root + EntrySuffixList(atts, n, metadata)[k]
  {
    EntriesAsSuffixesOver(root, "experiment/", METADATA_FILE, atts, n, metadata, entries, EntrySuffixList(atts, n, metadata));
  }

  /** `EntriesAsSuffixes` for any directory and metadata names. */
  lemma EntriesAsSuffixesOver(root: string, dir: string, meta: string, atts: seq<Attachment>, n: nat, metadata: bool,
                              entries: seq<string>, suffixes: seq<string>)
    requires n <= |atts|
    requires entries == [root, root + dir] + AttachmentPaths(root + dir, atts[..n]) + (if metadata then [root + meta] else [])
    requires suffixes == ["", dir] + AttachmentPaths(dir, atts[..n]) + (if metadata then [meta] else [])
    ensures |entries| == |suffixes|
    ensures forall k :: 0 <= k < |entries| ==> entries[k] == root + suffixes[k]
  {
    var paths := AttachmentPaths(root + dir, atts[..n]);
    forall k | 0 <= k < |entries| ensures entries[k] == root + suffixes[k] {
      if k == 0 {
        assert root + "" == root;
      } else if 2 <= k < 2 + n {
        var name := atts[k - 2].sanitizedName;
        assert entries[k] == paths[k - 2] == (root + dir) + name;
        assert suffixes[k] == dir + name;
        assert (root + dir) + name == root + (dir + name);
      }
    }
  }

  /**
   * With distinct, non-empty archive names no entry name is started twice,
   * whether the export succeeds or stops.
   */
  lemma EntriesDistinct(req: Request, env: Env, stamp: Result<string, string>)
    requires Distinct(Names(req.attachments))
    requires forall j :: 0 <= j < |req.attachments| ==> req.attachments[j].sanitizedName != []
    ensures Distinct(AssembleSpec(req, env, stamp).entries)
  {
    var atts := req.attachments;
    var out := AssembleSpec(req, env, stamp);
    var n := Copied(atts, env.rehash);
    EntriesWritten(req, env, stamp);
    EntriesAsSuffixes(RootPrefix(req.output), atts, n, out.result.Ok?, out.entries);
    SuffixesDistinct(atts, n, out.result.Ok?);
    EntrySuffixes(RootPrefix(req.output), EntrySuffixList(atts, n, out.result.Ok?), out.entries);
  }

  // ---------------------------------------------------------------------------
  // Properties: the metadata document

  /** Each key list names every member once. */
  lemma KeysDistinct()
    ensures DistinctKeys(FILE_KEYS) && DistinctKeys(ROOT_KEYS) && DistinctKeys(DESCRIPTOR_KEYS)
    ensures DistinctKeys(ORG_KEYS) && DistinctKeys(EXPERIMENT_KEYS)
  {
  }

  /** An attachment's node: its id under `./experiment/`, its name, MIME type, size in decimal and digest. */
  lemma FileNodeMembers(a: Attachment)
    ensures var m := FileNode(a).members;
      && Lookup(m, "@id") == Some(Str(EXPERIMENT_ID + a.sanitizedName))
      && Lookup(m, "@type") == Some(Str("File"))
      && Lookup(m, "name") == Some(Str(a.sanitizedName))
      && Lookup(m, "encodingFormat") == Some(Str(a.mime))
      && Lookup(m, "contentSize") == Some(Str(NatToString(a.size)))
      && Lookup(m, "sha256") == Some(Str(a.sha256))
  {
    KeysDistinct();
    var vals := [Str(EXPERIMENT_ID + a.sanitizedName), Str("File"), Str(a.sanitizedName), Str(a.mime),
                 Str(NatToString(a.size)), Str(a.sha256)];
    ZipLookup(FILE_KEYS, vals, 0);
    ZipLookup(FILE_KEYS, vals, 1);
    ZipLookup(FILE_KEYS, vals, 2);
    ZipLookup(FILE_KEYS, vals, 3);
    ZipLookup(FILE_KEYS, vals, 4);
    ZipLookup(FILE_KEYS, vals, 5);
  }

  /**
   * The `@graph` order: descriptor, root, experiment, organization, one file
   * node per attachment in attachment order, the metadata node, then one
   * node per extra field in field order.
   */
  lemma GraphLayout(req: Request, env: Env, ts: string)
    ensures var g, n, ex := Graph(req, env.uuid, env.renderHtml, ts), |req.attachments|, ExportOf(req, env.uuid);
      && |g| == 5 + n + |req.extraFields|
      && g[..4] == GraphHead(req, env.uuid, env.renderHtml, ts)
      && (forall i :: 0 <= i < n ==> g[4 + i] == FileNode(req.attachments[i]))
      && g[4 + n] == ex.metadataProperty
      && (forall j :: 0 <= j < |req.extraFields| ==>
            g[5 + n + j] == PropertyValue(req.extraFields[j], PvId(env.uuid(j))))
  {
    var ex := ExportOf(req, env.uuid);
    ConcatLayout(GraphHead(req, env.uuid, env.renderHtml, ts), FileNodes(req.attachments), ex.metadataProperty, ex.propertyValues);
  }

  /** Where the parts of a four-node head, a run of nodes, one node and a second run land in their concatenation. */
  lemma ConcatLayout<T>(head: seq<T>, files: seq<T>, meta: T, rest: seq<T>)
    requires |head| == 4
    ensures var g := head + files + [meta] + rest;
      && |g| == 5 + |files| + |rest|
      && g[..4] == head
      && (forall i :: 0 <= i < |files| ==> g[4 + i] == files[i])
      && g[4 + |files|] == meta
      && (forall j :: 0 <= j < |rest| ==> g[5 + |files| + j] == rest[j])
  {
    var g := head + files + [meta] + rest;
    assert g[..4] == head;
  }

  /** The ids the experiment lists as its parts. */
  function FileIds(atts: seq<Attachment>): (r: seq<string>)
    ensures |r| == |atts| && forall i :: 0 <= i < |atts| ==> r[i] == EXPERIMENT_ID + atts[i].sanitizedName
  {
    seq(|atts|, i requires 0 <= i < |atts| => EXPERIMENT_ID + atts[i].sanitizedName)
  }

  /** The value of member `key` of the experiment node. */
  function ExperimentMember(req: Request, env: Env, ts: string, key: string): Option<Json>
  {
    var ex := ExportOf(req, env.uuid);
    Lookup(ExperimentNode(req, BodyOf(req, env.renderHtml), ts, ex.variableMeasuredIds, FileNodes(req.attachments)).members, key)
  }

  lemma ExperimentMemberAt(req: Request, env: Env, ts: string, i: nat)
    requires i < |EXPERIMENT_KEYS|
    ensures var ex := ExportOf(req, env.uuid);
      var body := BodyOf(req, env.renderHtml);
      ExperimentMember(req, env, ts, EXPERIMENT_KEYS[i]) ==
        Some([Str(EXPERIMENT_ID), Str("Dataset"), Str(req.title), Str(body.1), Str(body.0),
          Str(ts), Str(ts), IdRef(ORG_ID), Str(GenreToken(req.genre)), Arr(StrArray(req.keywords)),
          Arr(IdRefs(ex.variableMeasuredIds)), Arr(HasParts(FileNodes(req.attachments)))][i])
  {
    KeysDistinct();
    var ex := ExportOf(req, env.uuid);
    var body := BodyOf(req, env.renderHtml);
    ZipLookup(EXPERIMENT_KEYS, [Str(EXPERIMENT_ID), Str("Dataset"), Str(req.title), Str(body.1), Str(body.0),
          Str(ts), Str(ts), IdRef(ORG_ID), Str(GenreToken(req.genre)), Arr(StrArray(req.keywords)),
          Arr(IdRefs(ex.variableMeasuredIds)), Arr(HasParts(FileNodes(req.attachments)))], i);
  }

  /**
   * The experiment's `hasPart` lists the ids of the file nodes, in
   * attachment order, and each file node carries the id listed for it.
   */
  lemma HasPartListsFiles(req: Request, env: Env, ts: string)
    ensures ExperimentMember(req, env, ts, "hasPart") == Some(Arr(IdRefs(FileIds(req.attachments))))
    ensures forall i :: 0 <= i < |req.attachments| ==>
      Lookup(FileNodes(req.attachments)[i].members, "@id") == Some(Str(FileIds(req.attachments)[i]))
  {
    var atts := req.attachments;
    ExperimentMemberAt(req, env, ts, 11);
    forall i | 0 <= i < |atts|
      ensures HasParts(FileNodes(atts))[i] == IdRefs(FileIds(atts))[i]
      ensures Lookup(FileNodes(atts)[i].members, "@id") == Some(Str(FileIds(atts)[i]))
    {
      FileNodeMembers(atts[i]);
    }
    assert HasParts(FileNodes(atts)) == IdRefs(FileIds(atts));
  }

  /**
   * The experiment's `variableMeasured` links the metadata node first and
   * then each field's node in field order: one more link than fields.
   */
  lemma VariableMeasuredLinks(req: Request, env: Env, ts: string)
    ensures var ex := ExportOf(req, env.uuid);
      && ExperimentMember(req, env, ts, "variableMeasured") == Some(Arr(IdRefs(ex.variableMeasuredIds)))
      && |ex.variableMeasuredIds| == |req.extraFields| + 1
      && Lookup(ex.metadataProperty.members, "@id") == Some(Str(ex.variableMeasuredIds[0]))
      && forall i :: 0 <= i < |req.extraFields| ==>
           Lookup(ex.propertyValues[i].members, "@id") == Some(Str(ex.variableMeasuredIds[i + 1]))
  {
    ExperimentMemberAt(req, env, ts, 10);
    ExportIdsLinked(req.extraFields, env.uuid, MetadataText(req.extraFields, req.extraGroups));
  }

  /**
   * The experiment node: its id, title, the body as rendered HTML or as
   * Markdown with the matching MIME type, both dates, the organization as
   * author, the genre token and the keywords.
   */
  lemma ExperimentDescribed(req: Request, env: Env, ts: string)
    ensures ExperimentMember(req, env, ts, "@id") == Some(Str(EXPERIMENT_ID))
    ensures ExperimentMember(req, env, ts, "name") == Some(Str(req.title))
    ensures req.bodyFormat.Html? ==>
      && ExperimentMember(req, env, ts, "text") == Some(Str(env.renderHtml(req.body)))
      && ExperimentMember(req, env, ts, "encodingFormat") == Some(Str("text/html"))
    ensures req.bodyFormat.Markdown? ==>
      && ExperimentMember(req, env, ts, "text") == Some(Str(req.body))
      && ExperimentMember(req, env, ts, "encodingFormat") == Some(Str("text/markdown"))
    ensures ExperimentMember(req, env, ts, "dateCreated") == Some(Str(ts))
    ensures ExperimentMember(req, env, ts, "dateModified") == Some(Str(ts))
    ensures ExperimentMember(req, env, ts, "author") == Some(IdRef(ORG_ID))
    ensures ExperimentMember(req, env, ts, "genre") == Some(Str(GenreToken(req.genre)))
    ensures ExperimentMember(req, env, ts, "keywords") == Some(Arr(StrArray(req.keywords)))
  {
    ExperimentMemberAt(req, env, ts, 0);
    ExperimentMemberAt(req, env, ts, 2);
    ExperimentMemberAt(req, env, ts, 3);
    ExperimentMemberAt(req, env, ts, 4);
    ExperimentMemberAt(req, env, ts, 5);
    ExperimentMemberAt(req, env, ts, 6);
    ExperimentMemberAt(req, env, ts, 7);
    ExperimentMemberAt(req, env, ts, 8);
    ExperimentMemberAt(req, env, ts, 9);
  }

  /**
   * The crate follows the "RO-Crate Metadata Descriptor" and "Root Data
   * Entity" sections of RO-Crate 1.2: the descriptor is
   * `ro-crate-metadata.json`, a `CreativeWork` about `./` that conforms to
   * RO-Crate 1.2; the root `./` is a `Dataset` whose part is the experiment;
   * the organization named as publisher and author is a node of the graph.
   */
  lemma CrateStructure(req: Request, env: Env, ts: string)
    ensures var d, r, org := Descriptor(ts).members, RootNode(req.title).members, Organization().members;
      && Lookup(d, "@id") == Some(Str(METADATA_FILE))
      && Lookup(d, "@type") == Some(Str("CreativeWork"))
      && Lookup(d, "about") == Some(IdRef("./"))
      && Lookup(d, "conformsTo") == Some(IdRef(CRATE_SPEC))
      && Lookup(d, "dateCreated") == Some(Str(ts))
      && Lookup(d, "sdPublisher") == Some(IdRef(ORG_ID))
      && Lookup(r, "@id") == Some(Str("./"))
      && Lookup(r, "@type") == Some(Str("Dataset"))
      && Lookup(r, "name") == Some(Str(req.title))
      && Lookup(r, "hasPart") == Some(Arr([IdRef(EXPERIMENT_ID)]))
      && Lookup(org, "@id") == Some(Str(ORG_ID))
      && Lookup(org, "@type") == Some(Str("Organization"))
    ensures Lookup(Document(req, env.uuid, env.renderHtml, ts).members, "@context") == Some(Str(CRATE_CONTEXT))
    ensures Lookup(Document(req, env.uuid, env.renderHtml, ts).members, "@graph") == Some(Arr(Graph(req, env.uuid, env.renderHtml, ts)))
  {
    KeysDistinct();
    var dv := [Str(METADATA_FILE), Str("CreativeWork"), IdRef("./"), IdRef(CRATE_SPEC), Str(ts), IdRef(ORG_ID)];
    ZipLookup(DESCRIPTOR_KEYS, dv, 0);
    ZipLookup(DESCRIPTOR_KEYS, dv, 1);
    ZipLookup(DESCRIPTOR_KEYS, dv, 2);
    ZipLookup(DESCRIPTOR_KEYS, dv, 3);
    ZipLookup(DESCRIPTOR_KEYS, dv, 4);
    ZipLookup(DESCRIPTOR_KEYS, dv, 5);
    var rv := [Str("./"), Str("Dataset"), Str(req.title), Arr([IdRef(EXPERIMENT_ID)]), Num(Int(ELN_VERSION))];
    ZipLookup(ROOT_KEYS, rv, 0);
    ZipLookup(ROOT_KEYS, rv, 1);
    ZipLookup(ROOT_KEYS, rv, 2);
    ZipLookup(ROOT_KEYS, rv, 3);
    var ov := [Str(ORG_ID), Str("Organization"), Str("elnPack"), Str("https://github.com/cbm343e/elnPack")];
    ZipLookup(ORG_KEYS, ov, 0);
    ZipLookup(ORG_KEYS, ov, 1);
  }

  /**
   * A successful export dates the crate with an RFC 3339 `date-time`
   * (section 5.6 of RFC 3339) in UTC.
   */
  lemma DatesAreRfc3339(req: Request, env: Env)
    requires ArchiveSpec(req, env).result.Ok?
    ensures FormatTimestamp(req.performedAt).Ok? && IsDateTime(FormatTimestamp(req.performedAt).value)
    ensures ArchiveSpec(req, env).result.value
      == Document(req, env.uuid, env.renderHtml, FormatTimestamp(req.performedAt).value)
  {
    SuccessContents(req, env, FormatTimestamp(req.performedAt));
    FormatIsDateTime(FromUnixTimestamp(req.performedAt));
  }
}
