/**
 * The file-icon choice of the attachment list: a MIME type and a path are
 * normalised and then run through an ordered chain of rules, the first rule
 * that matches deciding the icon.
 */
module FileIcons {
  import opened Wrappers
  import opened Text
  import opened Paths

  /** The Phosphor file icons the chain can choose. */
  datatype Icon =
    | FilePng | FileJpg | FileSvg | FileImage | FileVideo | FileAudio | FilePdf | FileCsv
    | FileArchive | FileDoc | FileXls | FilePpt | FileText | FileCode | FileIni | FileHtml
    | FileMd | FileCss | FileJs | FileJsx | FileTs | FileTsx | FileRs | FilePy | FileC
    | FileCpp | FileCSharp | FileSql | FileVue | FileTxt | File

  /** The MIME type before its first `;` (its parameters dropped), trimmed and ASCII-lowercased. */
  function NormalizeMime(mime: string): string
  {
    AsciiLower(Trim(Split(mime, ';')[0]))
  }

  /** An optional path part, ASCII-lowercased, or empty when absent. */
  function LowerOrEmpty(part: Option<string>): (r: string)
    ensures part.None? ==> r == ""
    ensures part.Some? ==> EqIgnoreAsciiCase(r, part.value) && AsciiLower(r) == r
  {
    AsciiLowerIdempotent(part.UnwrapOr(""));
    match part
    case None => ""
    case Some(s) => AsciiLower(s)
  }

  // The MIME types and MIME families the chain compares against.
  const APPLICATION_PREFIX := "application/"
  const MIME_ZIP := APPLICATION_PREFIX + "zip"
  const MIME_GZIP := APPLICATION_PREFIX + "gzip"
  const MIME_7Z := APPLICATION_PREFIX + "x-7z-compressed"
  const MIME_RAR := APPLICATION_PREFIX + "x-rar-compressed"
  const MIME_GTAR := APPLICATION_PREFIX + "x-gtar"
  const MIME_TAR := APPLICATION_PREFIX + "x-tar"
  const MIME_BZIP2 := APPLICATION_PREFIX + "x-bzip2"
  const MIME_XZ := APPLICATION_PREFIX + "x-xz"
  const MIME_ZSTD := APPLICATION_PREFIX + "zstd"
  const MIME_PDF := APPLICATION_PREFIX + "pdf"
  const MIME_CSV := TEXT_PREFIX + "csv"
  const MIME_DOC := APPLICATION_PREFIX + "msword"
  const MIME_DOCX := APPLICATION_PREFIX + "vnd.openxmlformats-officedocument.wordprocessingml.document"
  const MIME_XLS := APPLICATION_PREFIX + "vnd.ms-excel"
  const MIME_XLSX := APPLICATION_PREFIX + "vnd.openxmlformats-officedocument.spreadsheetml.sheet"
  const MIME_PPT := APPLICATION_PREFIX + "vnd.ms-powerpoint"
  const MIME_PPTX := APPLICATION_PREFIX + "vnd.openxmlformats-officedocument.presentationml.presentation"
  const MIME_ODT := APPLICATION_PREFIX + "vnd.oasis.opendocument.text"
  const MIME_ODS := APPLICATION_PREFIX + "vnd.oasis.opendocument.spreadsheet"
  const MIME_ODP := APPLICATION_PREFIX + "vnd.oasis.opendocument.presentation"
  const MIME_JSON := APPLICATION_PREFIX + "json"
  const MIME_XML := APPLICATION_PREFIX + "xml"
  const MIME_TEXT_XML := TEXT_PREFIX + "xml"
  const MIME_HTML := TEXT_PREFIX + "html"
  const MIME_MARKDOWN := TEXT_PREFIX + "markdown"
  const MIME_CSS := TEXT_PREFIX + "css"
  const MIME_JS := APPLICATION_PREFIX + "javascript"
  const MIME_TEXT_JS := TEXT_PREFIX + "javascript"
  const MIME_TS := APPLICATION_PREFIX + "typescript"
  const IMAGE_PREFIX := "image/"
  const VIDEO_PREFIX := "video/"
  const AUDIO_PREFIX := "audio/"
  const TEXT_PREFIX := "text/"

  /** The MIME types the chain treats as archives. */
  predicate ArchiveMimeType(mime: string) {
    mime == MIME_ZIP || mime == MIME_GZIP
    || mime == MIME_7Z || mime == MIME_RAR
    || mime == MIME_GTAR || mime == MIME_TAR
    || mime == MIME_BZIP2 || mime == MIME_XZ
    || mime == MIME_ZSTD
  }

  /** The extensions the chain treats as archives. */
  predicate ArchiveExtension(ext: string) {
    ext == "rar" || ext == "7z" || ext == "xz" || ext == "zst" || ext == "bz2"
  }

  /** The compound tar suffixes recognised on the whole file name. */
  predicate ArchiveName(fname: string) {
    EndsWith(fname, ".tar.gz") || EndsWith(fname, ".tgz") || EndsWith(fname, ".tar.bz2")
    || EndsWith(fname, ".tbz2") || EndsWith(fname, ".tar.xz") || EndsWith(fname, ".tar.zst")
  }

  /** `is_archive_mime`: an archive MIME type, an archive extension or a compound tar name. */
  predicate IsArchiveMime(mime: string, ext: string, fname: string) {
    ArchiveMimeType(mime) || ArchiveExtension(ext) || ArchiveName(fname)
  }

  /** The icon of an image MIME type, refined by the extension. */
  function ImageIcon(ext: string): Icon {
    if ext == "png" then FilePng
    else if ext == "jpg" || ext == "jpeg" then FileJpg
    else if ext == "svg" then FileSvg
    else FileImage
  }

  /**
   * The rule chain on a normalised MIME type, lowercased extension and
   * lowercased file name: media families, PDF, CSV and archives, then the
   * document, code and source-file rules in turn.
   */
  function IconOf(mime: string, ext: string, fname: string): Icon {
    if StartsWith(mime, IMAGE_PREFIX) then ImageIcon(ext)
    else if StartsWith(mime, VIDEO_PREFIX) then FileVideo
    else if StartsWith(mime, AUDIO_PREFIX) then FileAudio
    else if mime == MIME_PDF then FilePdf
    else if mime == MIME_CSV || ext == "csv" then FileCsv
    else if IsArchiveMime(mime, ext, fname) then FileArchive
    else DocumentIcon(mime, ext)
  }

  /** The office and OpenDocument rules, then the code rules. */
  function DocumentIcon(mime: string, ext: string): (r: Icon)
    ensures Rank(r) >= 6
  {
    if mime == MIME_DOC
      || mime == MIME_DOCX
      || ext == "doc" || ext == "docx" then FileDoc
    else if mime == MIME_XLS
      || mime == MIME_XLSX
      || ext == "xls" || ext == "xlsx" then FileXls
    else if mime == MIME_PPT
      || mime == MIME_PPTX
      || ext == "ppt" || ext == "pptx" then FilePpt
    else if mime == MIME_ODT || ext == "odt" then FileText
    else if mime == MIME_ODS || ext == "ods" then FileText
    else if mime == MIME_ODP || ext == "odp" then FileText
    else CodeIcon(mime, ext)
  }

  /** The data, markup and web rules, then the source-file rules. */
  function CodeIcon(mime: string, ext: string): (r: Icon)
    ensures Rank(r) >= 12
  {
    if mime == MIME_JSON || ext == "json" then FileCode
    else if mime == MIME_XML || mime == MIME_TEXT_XML || ext == "xml" then FileCode
    else if ext == "ini" then FileIni
    else if mime == MIME_HTML || ext == "html" || ext == "htm" then FileHtml
    else if mime == MIME_MARKDOWN || ext == "md" then FileMd
    else if mime == MIME_CSS || ext == "css" then FileCss
    else if mime == MIME_JS || mime == MIME_TEXT_JS || ext == "js" then FileJs
    else if ext == "jsx" then FileJsx
    else if mime == MIME_TS || ext == "ts" then FileTs
    else SourceIcon(mime, ext)
  }

  /** The source-file rules, plain text, and the generic icon for everything else. */
  function SourceIcon(mime: string, ext: string): (r: Icon)
    ensures Rank(r) >= 21
  {
    if ext == "tsx" then FileTsx
    else if ext == "rs" then FileRs
    else if ext == "py" then FilePy
    else if ext == "c" then FileC
    else if ext == "cpp" || ext == "cc" || ext == "cxx" then FileCpp
    else if ext == "cs" then FileCSharp
    else if ext == "sql" then FileSql
    else if ext == "vue" then FileVue
    else if ext == "txt" || StartsWith(mime, TEXT_PREFIX) then FileTxt
    else File
  }

  /** `icon_for`: the chain applied to the normalised MIME type and the path's lowercased extension and name. */
  function IconFor(mime: string, path: Path): Icon {
    IconOf(NormalizeMime(mime), LowerOrEmpty(Extension(path)), LowerOrEmpty(FileName(path)))
  }

  /**
   * The position in the chain of the first rule that can yield an icon
   * (the three OpenDocument rules and the two code rules share theirs).
   */
  function Rank(i: Icon): nat {
    match i
    case FilePng => 0 case FileJpg => 0 case FileSvg => 0 case FileImage => 0
    case FileVideo => 1 case FileAudio => 2 case FilePdf => 3 case FileCsv => 4
    case FileArchive => 5 case FileDoc => 6 case FileXls => 7 case FilePpt => 8
    case FileText => 9 case FileCode => 12 case FileIni => 14 case FileHtml => 15
    case FileMd => 16 case FileCss => 17 case FileJs => 18 case FileJsx => 19
    case FileTs => 20 case FileTsx => 21 case FileRs => 22 case FilePy => 23
    case FileC => 24 case FileCpp => 25 case FileCSharp => 26 case FileSql => 27
    case FileVue => 28 case FileTxt => 29 case File => 30
  }

  // ---------------------------------------------------------------------
  // What the rules recognise, segment by segment: the exact MIME types and
  // the extensions each part of the chain compares against.
  // ---------------------------------------------------------------------

  const EarlyMimes: set<string> := {
    MIME_PDF, MIME_CSV, MIME_ZIP, MIME_GZIP, MIME_7Z, MIME_RAR, MIME_GTAR, MIME_TAR,
    MIME_BZIP2, MIME_XZ, MIME_ZSTD
  }
  const EarlyExtensions: set<string> := {"csv", "rar", "7z", "xz", "zst", "bz2"}

  const DocumentMimes: set<string> := {
    MIME_DOC, MIME_DOCX, MIME_XLS, MIME_XLSX, MIME_PPT, MIME_PPTX, MIME_ODT, MIME_ODS, MIME_ODP
  }
  const DocumentExtensions: set<string> :=
    {"doc", "docx", "xls", "xlsx", "ppt", "pptx", "odt", "ods", "odp"}

  const CodeMimes: set<string> := {
    MIME_JSON, MIME_XML, MIME_TEXT_XML, MIME_HTML, MIME_MARKDOWN, MIME_CSS, MIME_JS,
    MIME_TEXT_JS, MIME_TS
  }
  const CodeExtensions: set<string> := {"json", "xml", "ini", "html", "htm", "md", "css", "js", "jsx", "ts"}

  const SourceExtensions: set<string> :=
    {"tsx", "rs", "py", "c", "cpp", "cc", "cxx", "cs", "sql", "vue", "txt"}

  /** An exact MIME type some rule compares against. */
  predicate KnownMime(mime: string) {
    mime in EarlyMimes || mime in DocumentMimes || mime in CodeMimes
  }

  /** An extension some rule compares against (outside the image refinement). */
  predicate KnownExtension(ext: string) {
    ext in EarlyExtensions || ext in DocumentExtensions || ext in CodeExtensions
    || ext in SourceExtensions
  }

  /** A MIME type that no rule of the chain recognises, by family or exactly. */
  predicate UnrecognisedMime(mime: string) {
    && !StartsWith(mime, IMAGE_PREFIX) && !StartsWith(mime, VIDEO_PREFIX)
    && !StartsWith(mime, AUDIO_PREFIX) && !StartsWith(mime, TEXT_PREFIX)
    && !KnownMime(mime)
  }

  predicate IsImageIcon(i: Icon) {
    i == FilePng || i == FileJpg || i == FileSvg || i == FileImage
  }

  // ---------------------------------------------------------------------
  // Normalisation
  // ---------------------------------------------------------------------

  lemma SplitOfSeparatorFree(s: string, sep: char)
    requires sep !in s
    ensures Split(s, sep) == [s]
  {
  }

  /** The first part of a split is unchanged by text appended after a separator. */
  lemma SplitHeadAppend(m: string, rest: string, sep: char)
    ensures Split(m + [sep] + rest, sep)[0] == Split(m, sep)[0]
  {
    var s := m + [sep] + rest;
    match IndexOf(m, sep)
    case None =>
      SplitFirst(m, rest, sep);
    case Some(i) =>
      assert s[..i] == m[..i];
      assert s[i] == sep;
      assert forall k :: 0 <= k < i ==> s[k] == m[k];
      assert IndexOf(s, sep) == Some(i);
  }

  /** Lowering ASCII letters keeps a trimmed string trimmed. */
  lemma LowerKeepsTrimmed(t: string)
    requires IsTrimmed(t)
    ensures IsTrimmed(AsciiLower(t))
  {
  }

  /** A normalised MIME type holds no `;`, has no surrounding whitespace and no ASCII capital. */
  lemma NormalizedMimeShape(mime: string)
    ensures ';' !in NormalizeMime(mime)
    ensures IsTrimmed(NormalizeMime(mime))
    ensures forall i :: 0 <= i < |NormalizeMime(mime)| ==> !IsAsciiUpper(NormalizeMime(mime)[i])
  {
    var head := Split(mime, ';')[0];
    TrimIsInfix(head);
    TrimIsTrimmed(head);
    LowerKeepsTrimmed(Trim(head));
    var r := NormalizeMime(mime);
    forall i | 0 <= i < |r| ensures r[i] != ';' {
      var t := Trim(head);
      assert r[i] == AsciiLowerChar(t[i]);
      assert t[i] in t;
      assert t[i] in head by { TrimInfixChar(head, i); }
    }
  }

  /** Every character of the trimmed text is a character of the text. */
  lemma TrimInfixChar(s: string, i: nat)
    requires i < |Trim(s)|
    ensures Trim(s)[i] in s
  {
    TrimIsInfix(s);
  }

  /** Normalising twice is normalising once. */
  lemma NormalizeMimeIdempotent(mime: string)
    ensures NormalizeMime(NormalizeMime(mime)) == NormalizeMime(mime)
  {
    var r := NormalizeMime(mime);
    NormalizedMimeShape(mime);
    SplitOfSeparatorFree(r, ';');
    TrimOfTrimmed(r);
    AsciiLowerIdempotent(Trim(Split(mime, ';')[0]));
  }

  /** MIME parameters after the first `;` never change the icon. */
  lemma IconForIgnoresParameters(mime: string, params: string, path: Path)
    ensures IconFor(mime + ";" + params, path) == IconFor(mime, path)
  {
    SplitHeadAppend(mime, params, ';');
    assert mime + ";" + params == mime + [';'] + params;
  }

  // ---------------------------------------------------------------------
  // The order of the chain
  // ---------------------------------------------------------------------

  /** A MIME type under `image/` is decided before every other rule, and only it yields an image icon. */
  lemma ImageRuleFirst(mime: string, ext: string, fname: string)
    ensures StartsWith(mime, IMAGE_PREFIX) ==> IconOf(mime, ext, fname) == ImageIcon(ext)
    ensures IsImageIcon(IconOf(mime, ext, fname)) <==> StartsWith(mime, IMAGE_PREFIX)
  {
  }

  /** The image refinement: png, jpg/jpeg and svg have their own icon, anything else the generic one. */
  lemma ImageIconByExtension(ext: string)
    ensures ImageIcon(ext) == FilePng <==> ext == "png"
    ensures ImageIcon(ext) == FileJpg <==> ext == "jpg" || ext == "jpeg"
    ensures ImageIcon(ext) == FileSvg <==> ext == "svg"
  {
  }

  /** CSV is decided before the archive rule: a `.csv` file is a CSV even with an archive MIME type or name. */
  lemma CsvBeforeArchive(mime: string, fname: string)
    requires !StartsWith(mime, IMAGE_PREFIX) && !StartsWith(mime, VIDEO_PREFIX) && !StartsWith(mime, AUDIO_PREFIX)
    requires mime != MIME_PDF
    ensures IconOf(mime, "csv", fname) == FileCsv
  {
  }

  /** The archive icon is chosen exactly when `is_archive_mime` holds and no earlier rule matched. */
  lemma ArchiveIconExactly(mime: string, ext: string, fname: string)
    ensures IconOf(mime, ext, fname) == FileArchive <==>
      && IsArchiveMime(mime, ext, fname)
      && !StartsWith(mime, IMAGE_PREFIX) && !StartsWith(mime, VIDEO_PREFIX) && !StartsWith(mime, AUDIO_PREFIX)
      && mime != MIME_PDF && mime != MIME_CSV && ext != "csv"
  {
  }

  /** A name ending in `.json` is no compound tar name. */
  lemma JsonNameNotArchive(fname: string)
    requires EndsWith(fname, ".json")
    ensures !ArchiveName(fname)
  {
    assert fname[|fname| - 1] == 'n';
  }

  /** A `.json` file is code even when its MIME type is a generic `text/` one. */
  lemma JsonBeforeText(mime: string, fname: string)
    requires StartsWith(mime, TEXT_PREFIX) && mime != MIME_CSV
    requires EndsWith(fname, ".json")
    ensures IconOf(mime, "json", fname) == FileCode
  {
    JsonNameNotArchive(fname);
    TextFamilyExcludes(mime);
    PastEarlyRules(mime, "json", fname);
    PastDocumentRules(mime, "json");
  }

  /** A textual MIME type is in no other family and is none of the `application/` types. */
  lemma TextFamilyExcludes(mime: string)
    requires StartsWith(mime, TEXT_PREFIX)
    ensures !StartsWith(mime, IMAGE_PREFIX) && !StartsWith(mime, VIDEO_PREFIX)
    ensures !StartsWith(mime, AUDIO_PREFIX)
    ensures mime in EarlyMimes ==> mime == MIME_CSV
    ensures mime !in DocumentMimes
  {
    assert mime[0] == 't';
  }

  /** Past the media, PDF, CSV and archive rules, the document rules decide. */
  lemma PastEarlyRules(mime: string, ext: string, fname: string)
    requires !StartsWith(mime, IMAGE_PREFIX) && !StartsWith(mime, VIDEO_PREFIX)
    requires !StartsWith(mime, AUDIO_PREFIX)
    requires mime !in EarlyMimes && ext !in EarlyExtensions && !ArchiveName(fname)
    ensures IconOf(mime, ext, fname) == DocumentIcon(mime, ext)
  {
  }

  /** Past the document rules, the code rules decide. */
  lemma PastDocumentRules(mime: string, ext: string)
    requires mime !in DocumentMimes && ext !in DocumentExtensions
    ensures DocumentIcon(mime, ext) == CodeIcon(mime, ext)
  {
  }

  /** A compound tar name with an unrecognised MIME type is an archive unless its extension is `csv`. */
  lemma ArchiveNameDecides(mime: string, ext: string, fname: string)
    requires UnrecognisedMime(mime) && ArchiveName(fname)
    ensures IconOf(mime, ext, fname) == (if ext == "csv" then FileCsv else FileArchive)
  {
  }

  /**
   * Every input yields an icon, and the generic one exactly when no rule
   * recognises the MIME type, the extension or the file name.
   */
  lemma FileExactlyWhenUnmatched(mime: string, ext: string, fname: string)
    ensures IconOf(mime, ext, fname) == File <==>
      UnrecognisedMime(mime) && !KnownExtension(ext) && !ArchiveName(fname)
  {
    TopIsFile(mime, ext, fname);
    DocumentIsFile(mime, ext);
    CodeIsFile(mime, ext);
    SourceIsFile(mime, ext);
  }

  lemma TopIsFile(mime: string, ext: string, fname: string)
    ensures IconOf(mime, ext, fname) == File <==>
      && !StartsWith(mime, IMAGE_PREFIX) && !StartsWith(mime, VIDEO_PREFIX)
      && !StartsWith(mime, AUDIO_PREFIX)
      && mime !in EarlyMimes && ext !in EarlyExtensions && !ArchiveName(fname)
      && DocumentIcon(mime, ext) == File
  {
    if IconOf(mime, ext, fname) == File {
      TopFileMatchesNothing(mime, ext, fname);
    }
  }

  lemma TopFileMatchesNothing(mime: string, ext: string, fname: string)
    requires IconOf(mime, ext, fname) == File
    ensures mime !in EarlyMimes && ext !in EarlyExtensions
  {
  }

  lemma DocumentIsFile(mime: string, ext: string)
    ensures DocumentIcon(mime, ext) == File <==>
      mime !in DocumentMimes && ext !in DocumentExtensions && CodeIcon(mime, ext) == File
  {
    if DocumentIcon(mime, ext) == File {
      DocumentFileMatchesNothing(mime, ext);
    }
  }

  lemma DocumentFileMatchesNothing(mime: string, ext: string)
    requires DocumentIcon(mime, ext) == File
    ensures mime !in DocumentMimes && ext !in DocumentExtensions
  {
  }

  lemma CodeIsFile(mime: string, ext: string)
    ensures CodeIcon(mime, ext) == File <==>
      mime !in CodeMimes && ext !in CodeExtensions && SourceIcon(mime, ext) == File
  {
  }

  lemma SourceIsFile(mime: string, ext: string)
    ensures SourceIcon(mime, ext) == File <==>
      !StartsWith(mime, TEXT_PREFIX) && ext !in SourceExtensions
  {
  }
}
