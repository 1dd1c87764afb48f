/**
 * The root Model-View-Update kernel: the application state that wires the
 * editor components together, the root messages and commands, the reducer
 * that routes each message to its component and translates the component's
 * commands, the status/error feedback, and the validation that turns the
 * state into a save request.
 *
 * The reducer is given as a value (`Step`) and performed in place by the
 * class `AppModel`, whose `Update` is proved to agree with it.
 */
module Mvu {
  import opened Wrappers
  import opened Text
  import opened Paths
  import Att = DomainAttachment
  import KwDom = DomainKeywords
  import EF = DomainExtraFields
  import ElnNames
  import ElnArchive
  import KeywordsUi
  import AttachmentsUi
  import ExtraFieldsUi
  import MarkdownUi
  import DateTimePicker

  // ---------------------------------------------------------------------------
  // Messages, commands and state

  /** `Msg`.  The decoded image of `ThumbnailDecoded` carries no meaning here and is left out. */
  datatype Msg =
    | EntryTitleChanged(text: string)
    | SetGenre(genre: ElnNames.Genre)
    | SetBodyFormat(format: ElnArchive.BodyFormat)
    | SaveRequested(output: Path)
    | SaveCancelled
    | SaveCompleted(result: Result<Path, string>)
    | ThumbnailDecoded(path: Path)
    | ThumbnailReady(path: Path, texture: AttachmentsUi.Texture)
    | DismissError
    | Markdown(markdownMsg: MarkdownUi.Msg)
    | Attachments(attachmentsMsg: AttachmentsUi.Msg)
    | Keywords(keywordsMsg: KeywordsUi.Msg)
    | ExtraFields(extraFieldsMsg: ExtraFieldsUi.Msg)
    | DateTime(dateTimeMsg: DateTimePicker.Msg)

  /**
   * `SavePayload`: the validated data for one save.  It carries exactly the
   * arguments `build_and_write_archive` takes, so it is the archive request.
   */
  type SavePayload = ElnArchive.Request

  /** `Command`: side effects executed between frames. */
  datatype Command =
    | PickFiles
    | HashFile(path: Path, retry: bool)
    | LoadThumbnail(path: Path, retry: bool)
    | PickExtraFieldsFile
    | SaveArchive(payload: SavePayload)

  /** The fields of `AppModel`; each component's model is held as its value. */
  datatype State = State(
    entryTitle: string,
    archiveGenre: ElnNames.Genre,
    bodyFormat: ElnArchive.BodyFormat,
    markdown: MarkdownUi.State,
    attachments: AttachmentsUi.State,
    keywords: KeywordsUi.State,
    extraFields: ExtraFieldsUi.State,
    datetime: DateTimePicker.State,
    status: Option<string>,
    error: Option<string>,
    pendingCommands: nat)

  /**
   * What the reducer needs from outside: the parsers field validation
   * relies on, and the UTC offsets the local time zone gives a wall-clock
   * time on the picker (none for a gap, two for a fold).
   */
  datatype Context = Context(parsers: EF.Parsers, zone: DateTimePicker.State -> seq<int>)

  /** `AppModel::default()`: empty components, the picker at the clock's reading, no feedback. */
  function Default(now: DateTimePicker.ClockReading): State
  {
    State("", ElnNames.Experiment, ElnArchive.Html, MarkdownUi.Initial, AttachmentsUi.Initial,
      KeywordsUi.Initial, ExtraFieldsUi.Initial, DateTimePicker.Default(now), None, None, 0)
  }

  const TITLE_REQUIRED: string := "Please enter a title."
  const DATETIME_PREFIX: string := "Invalid date/time: "
  const SAVE_CANCELLED: string := "Save cancelled."
  const ARCHIVE_SAVED: string := "Archive saved: "
  const SAVE_FAILED: string := "Failed to save archive:\n\n"

  // ---------------------------------------------------------------------------
  // Feedback

  /** `surface_event`: the message always becomes the status, and also the error when it is one. */
  function Surfaced(s: State, message: string, isError: bool): (r: State)
  {
    s.(status := Some(message), error := if isError then Some(message) else s.error)
  }

  /** An error is never shown without a status line. */
  predicate ErrorShown(s: State)
  {
    s.error.Some? ==> s.status.Some?
  }

  // ---------------------------------------------------------------------------
  // Command translation

  /** One attachments command as a root command, never a retry. */
  function FromAttachments(c: AttachmentsUi.Command): Command
  {
    match c
    case PickFiles => PickFiles
    case HashFile(p) => HashFile(p, false)
    case LoadThumbnailCmd(p) => LoadThumbnail(p, false)
  }

  /** The attachments command a root command stands for, if any. */
  function AttachmentsCommandOf(c: Command): Option<AttachmentsUi.Command>
  {
    match c
    case PickFiles => Some(AttachmentsUi.PickFiles)
    case HashFile(p, _) => Some(AttachmentsUi.HashFile(p))
    case LoadThumbnail(p, _) => Some(AttachmentsUi.LoadThumbnailCmd(p))
    case _ => None
  }

  /** The attachments' commands translated one for one, in order. */
  function TranslateAttachments(cs: seq<AttachmentsUi.Command>): (r: seq<Command>)
    ensures |r| == |cs| && forall k :: 0 <= k < |cs| ==> r[k] == FromAttachments(cs[k])
  {
    seq(|cs|, k requires 0 <= k < |cs| => FromAttachments(cs[k]))
  }

  /** The extra-fields' one command. */
  function FromExtraFields(c: ExtraFieldsUi.Command): Command
  {
    PickExtraFieldsFile
  }

  /** The extra-fields' commands translated one for one, in order. */
  function TranslateExtraFields(cs: seq<ExtraFieldsUi.Command>): (r: seq<Command>)
    ensures |r| == |cs| && forall k :: 0 <= k < |cs| ==> r[k] == FromExtraFields(cs[k])
  {
    seq(|cs|, k requires 0 <= k < |cs| => FromExtraFields(cs[k]))
  }

  // ---------------------------------------------------------------------------
  // Save validation

  /**
   * The message for the first invalid field.  The program matches on the
   * reason's code; `invalid_email` is the one code left to the catch-all arm.
   */
  function FieldMessage(name: string, reason: EF.Reason): string
  {
    match reason
    case Required => "Field '" + name + "' is required."
    case InvalidUrl => "Field '" + name + "' must be a valid http/https URL."
    case InvalidNumber => "Field '" + name + "' must be a valid number."
    case InvalidInteger => "Field '" + name + "' must be a valid integer ID."
    case InvalidEmail => "Field '" + name + "' is invalid."
  }

  predicate AllFieldsValid(p: EF.Parsers, fields: seq<EF.ExtraField>)
  {
    forall i :: 0 <= i < |fields| ==> EF.ValidateField(p, fields[i]).None?
  }

  /** The index and reason of the first field that fails validation. */
  function FirstInvalidField(p: EF.Parsers, fields: seq<EF.ExtraField>): (r: Option<(nat, EF.Reason)>)
    ensures r.None? <==> AllFieldsValid(p, fields)
    ensures r.Some? ==> && r.value.0 < |fields|
                        && EF.ValidateField(p, fields[r.value.0]) == Some(r.value.1)
                        && forall j :: 0 <= j < r.value.0 ==> EF.ValidateField(p, fields[j]).None?
  {
    if fields == [] then None
    else
      match EF.ValidateField(p, fields[0])
      case Some(reason) => Some((0, reason))
      case None =>
        match FirstInvalidField(p, fields[1..])
        case None => None
        case Some(bad) => Some((bad.0 + 1, bad.1))
  }

  /**
   * `validate_for_save`: the title must not be blank, the picker must give
   * an instant, the attachments' archive names must be distinct and every
   * extra field must validate, checked in that order; the first failure is
   * the error.  Title and body are trimmed and the keywords normalized.
   */
  function SaveValidation(s: State, ctx: Context, output: Path): Result<SavePayload, string>
  {
    var title := Trim(s.entryTitle);
    if title == [] then Err(TITLE_REQUIRED)
    else
      var performedAt := DateTimePicker.ToOffsetDateTime(s.datetime, ctx.zone(s.datetime));
      if performedAt.Err? then Err(DATETIME_PREFIX + performedAt.error)
      else
        var names := Att.UniqueNamesCheck(s.attachments.attachments);
        if names.Err? then Err(names.error)
        else
          var bad := FirstInvalidField(ctx.parsers, s.extraFields.fields);
          if bad.Some? then Err(FieldMessage(s.extraFields.fields[bad.value.0].fieldLabel, bad.value.1))
          else Ok(ElnArchive.Request(output, title, Trim(s.markdown.text), s.attachments.attachments,
            s.extraFields.fields, s.extraFields.groups, performedAt.value, s.archiveGenre,
            KwDom.Dedup(s.keywords.keywords), s.bodyFormat))
  }

  /** The payload a fully valid state gives. */
  function PayloadOf(s: State, ctx: Context, output: Path, performedAt: int): SavePayload
  {
    ElnArchive.Request(output, Trim(s.entryTitle), Trim(s.markdown.text), s.attachments.attachments,
      s.extraFields.fields, s.extraFields.groups, performedAt, s.archiveGenre,
      KwDom.Dedup(s.keywords.keywords), s.bodyFormat)
  }

  // ---------------------------------------------------------------------------
  // The reducer as a value

  /** The attachments component's update, its feedback surfaced and its commands translated. */
  function AttachmentsStep(s: State, m: AttachmentsUi.Msg): (State, seq<Command>)
  {
    var r := AttachmentsUi.Step(s.attachments, m);
    var s' := s.(attachments := r.0);
    (if r.2.Some? then Surfaced(s', r.2.value.message, r.2.value.isError) else s', TranslateAttachments(r.1))
  }

  /** The keywords component's update, its feedback surfaced. */
  function KeywordsStep(s: State, m: KeywordsUi.Msg): (State, seq<Command>)
  {
    var r := KeywordsUi.Step(s.keywords, m);
    var s' := s.(keywords := r.0);
    (if r.1.Some? then Surfaced(s', r.1.value.message, r.1.value.isError) else s', [])
  }

  /** The extra-fields component's update, its feedback surfaced and its commands translated. */
  function ExtraFieldsStep(s: State, m: ExtraFieldsUi.Msg): (State, seq<Command>)
  {
    var r := ExtraFieldsUi.Step(s.extraFields, m);
    var s' := s.(extraFields := r.0);
    (if r.2.Some? then Surfaced(s', r.2.value.message, r.2.value.isError) else s', TranslateExtraFields(r.1))
  }

  /** `SaveRequested`: a valid state enqueues its payload, an invalid one surfaces the error. */
  function SaveStep(s: State, ctx: Context, output: Path): (State, seq<Command>)
  {
    var v := SaveValidation(s, ctx, output);
    if v.Ok? then (s, [SaveArchive(v.value)]) else (Surfaced(s, v.error, true), [])
  }

  /** `SaveCompleted`: the outcome of the save reported back. */
  function CompletedStep(s: State, result: Result<Path, string>): State
  {
    if result.Ok? then Surfaced(s, ARCHIVE_SAVED + result.value, false)
    else Surfaced(s, SAVE_FAILED + result.error, true)
  }

  /** The messages `update` hands to a component. */
  predicate IsComponentMsg(msg: Msg)
  {
    msg.Markdown? || msg.Attachments? || msg.ThumbnailReady? || msg.Keywords? || msg.ExtraFields? || msg.DateTime?
  }

  /** The arms of `update` that hand the message to a component. */
  function ComponentStep(s: State, msg: Msg): (State, seq<Command>)
    requires IsComponentMsg(msg)
  {
    if msg.Markdown? then (s.(markdown := MarkdownUi.Step(s.markdown, msg.markdownMsg)), [])
    else if msg.Attachments? then AttachmentsStep(s, msg.attachmentsMsg)
    else if msg.ThumbnailReady? then AttachmentsStep(s, AttachmentsUi.ThumbnailReady(msg.path, msg.texture))
    else if msg.Keywords? then KeywordsStep(s, msg.keywordsMsg)
    else if msg.ExtraFields? then ExtraFieldsStep(s, msg.extraFieldsMsg)
    else (s.(datetime := DateTimePicker.Step(s.datetime, msg.dateTimeMsg)), [])
  }

  /** The arms of `update` that the root model handles itself. */
  function RootStep(s: State, ctx: Context, msg: Msg): (State, seq<Command>)
    requires !IsComponentMsg(msg)
  {
    if msg.EntryTitleChanged? then (s.(entryTitle := msg.text), [])
    else if msg.SetGenre? then (s.(archiveGenre := msg.genre), [])
    else if msg.SetBodyFormat? then (s.(bodyFormat := msg.format), [])
    else if msg.DismissError? then (s.(error := None), [])
    else if msg.ThumbnailDecoded? then (s, [])
    else if msg.SaveRequested? then SaveStep(s, ctx, msg.output)
    else if msg.SaveCancelled? then (Surfaced(s, SAVE_CANCELLED, false), [])
    else (CompletedStep(s, msg.result), [])
  }

  /** `update` as a value: the new state and the commands pushed. */
  function Step(s: State, ctx: Context, msg: Msg): (State, seq<Command>)
  {
    if IsComponentMsg(msg) then ComponentStep(s, msg) else RootStep(s, ctx, msg)
  }

  /** The state after a sequence of messages. */
  function Run(s: State, ctx: Context, msgs: seq<Msg>): State
  {
    if msgs == [] then s else Step(Run(s, ctx, msgs[..|msgs| - 1]), ctx, msgs[|msgs| - 1]).0
  }

  // ---------------------------------------------------------------------------
  // Feedback and routing

  /**
   * `surface_event`: the status always becomes the message; the error
   * becomes it for an error and is left alone otherwise; nothing else
   * changes, and afterwards an error is never shown without a status.
   */
  lemma SurfacedFeedback(s: State, message: string, isError: bool)
    ensures var r := Surfaced(s, message, isError);
      && r.status == Some(message)
      && (isError ==> r.error == Some(message))
      && (!isError ==> r.error == s.error)
      && r.(status := s.status, error := s.error) == s
      && ErrorShown(r)
  {
  }

  /** `SaveCancelled` reports the cancellation as a status, pushes nothing and leaves the error alone. */
  lemma SaveCancelledStatus(s: State, ctx: Context)
    ensures RootStep(s, ctx, SaveCancelled) == (s.(status := Some(SAVE_CANCELLED)), [])
  {
  }

  /** `DismissError` clears the error and nothing else. */
  lemma DismissErrorClears(s: State, ctx: Context)
    ensures RootStep(s, ctx, DismissError) == (s.(error := None), [])
  {
  }

  /**
   * `SaveCompleted`: a saved archive is reported as a status naming its
   * path, without touching the error; a failure becomes both the status and
   * the error.  Nothing is pushed either way.
   */
  lemma SaveCompletedFeedback(s: State, ctx: Context, result: Result<Path, string>)
    ensures result.Ok? ==>
      RootStep(s, ctx, SaveCompleted(result)) == (s.(status := Some(ARCHIVE_SAVED + result.value)), [])
    ensures result.Err? ==>
      var e := SAVE_FAILED + result.error;
      RootStep(s, ctx, SaveCompleted(result)) == (s.(status := Some(e), error := Some(e)), [])
  {
  }

  /** Every attachments command maps to a root command it can be read back from; none is a retry. */
  lemma AttachmentsCommandRoundTrip(c: AttachmentsUi.Command)
    ensures AttachmentsCommandOf(FromAttachments(c)) == Some(c)
    ensures FromAttachments(c).HashFile? || FromAttachments(c).LoadThumbnail? ==> !FromAttachments(c).retry
  {
  }

  /** Translation loses nothing: different command lists stay different. */
  lemma TranslateAttachmentsInjective(a: seq<AttachmentsUi.Command>, b: seq<AttachmentsUi.Command>)
    requires TranslateAttachments(a) == TranslateAttachments(b)
    ensures a == b
  {
    forall k | 0 <= k < |a| ensures a[k] == b[k] {
      AttachmentsCommandRoundTrip(a[k]);
      AttachmentsCommandRoundTrip(b[k]);
    }
  }

  /**
   * An attachments message updates the attachments and, through its event,
   * the feedback; every command it asks for is pushed translated, in order.
   */
  lemma AttachmentsRouted(s: State, m: AttachmentsUi.Msg)
    ensures var r := AttachmentsUi.Step(s.attachments, m);
      && AttachmentsStep(s, m).0.attachments == r.0
      && AttachmentsStep(s, m).0.(attachments := s.attachments, status := s.status, error := s.error) == s
      && AttachmentsStep(s, m).1 == TranslateAttachments(r.1)
  {
  }

  /** `ThumbnailReady` is the attachments' own message, forwarded. */
  lemma ThumbnailReadyForwarded(s: State, path: Path, texture: AttachmentsUi.Texture)
    ensures ComponentStep(s, ThumbnailReady(path, texture)) == ComponentStep(s, Attachments(AttachmentsUi.ThumbnailReady(path, texture)))
  {
  }

  /** Loading a thumbnail pushes exactly one root `LoadThumbnail` for the same path, not a retry, and changes nothing. */
  lemma LoadThumbnailEnqueues(s: State, path: Path)
    ensures AttachmentsStep(s, AttachmentsUi.LoadThumbnail(path)) == (s, [LoadThumbnail(path, false)])
  {
    assert TranslateAttachments([AttachmentsUi.LoadThumbnailCmd(path)]) == [LoadThumbnail(path, false)];
  }

  /** `ThumbnailDecoded` does nothing. */
  lemma ThumbnailDecodedIgnored(s: State, ctx: Context, path: Path)
    ensures RootStep(s, ctx, ThumbnailDecoded(path)) == (s, [])
  {
  }

  /** An extra-fields message pushes one `PickExtraFieldsFile` per command the component asks for. */
  lemma ExtraFieldsRouted(s: State, m: ExtraFieldsUi.Msg)
    ensures var r := ExtraFieldsUi.Step(s.extraFields, m);
      && ExtraFieldsStep(s, m).0.extraFields == r.0
      && ExtraFieldsStep(s, m).0.(extraFields := s.extraFields, status := s.status, error := s.error) == s
      && |ExtraFieldsStep(s, m).1| == |r.1|
      && forall k :: 0 <= k < |r.1| ==> ExtraFieldsStep(s, m).1[k] == PickExtraFieldsFile
  {
  }

  /** A keywords message updates the keywords and the feedback, and pushes nothing. */
  lemma KeywordsRouted(s: State, m: KeywordsUi.Msg)
    ensures KeywordsStep(s, m).0.keywords == KeywordsUi.Step(s.keywords, m).0
    ensures KeywordsStep(s, m).0.(keywords := s.keywords, status := s.status, error := s.error) == s
    ensures KeywordsStep(s, m).1 == []
  {
  }

  /** The editor reports nothing: its messages change its own state only. */
  lemma MarkdownRouted(s: State, m: MarkdownUi.Msg)
    ensures ComponentStep(s, Markdown(m)) == (s.(markdown := MarkdownUi.Step(s.markdown, m)), [])
  {
  }

  /** The picker reports nothing: its messages change its own state only. */
  lemma DateTimeRouted(s: State, d: DateTimePicker.Msg)
    ensures ComponentStep(s, DateTime(d)) == (s.(datetime := DateTimePicker.Step(s.datetime, d)), [])
  {
  }

  /** The reducer never touches the count of queued commands: that belongs to the frame loop. */
  lemma PendingCommandsUntouched(s: State, ctx: Context, msg: Msg)
    ensures Step(s, ctx, msg).0.pendingCommands == s.pendingCommands
  {
  }

  // ---------------------------------------------------------------------------
  // Save validation

  /** A title that is blank enqueues nothing and shows "Please enter a title." as status and error. */
  lemma BlankTitleRefused(s: State, ctx: Context, output: Path)
    requires AllWhitespace(s.entryTitle)
    ensures SaveStep(s, ctx, output) == (s.(status := Some(TITLE_REQUIRED), error := Some(TITLE_REQUIRED)), [])
  {
    TrimEmptyIffBlank(s.entryTitle);
  }

  /**
   * The checks run in order and the first failure is reported: the title,
   * then the date and time (its error prefixed), then the archive names.
   */
  lemma SaveChecksInOrder(s: State, ctx: Context, output: Path)
    ensures var v := SaveValidation(s, ctx, output);
      var at := DateTimePicker.ToOffsetDateTime(s.datetime, ctx.zone(s.datetime));
      && (Trim(s.entryTitle) == [] ==> v == Err(TITLE_REQUIRED))
      && (Trim(s.entryTitle) != [] && at.Err? ==> v == Err(DATETIME_PREFIX + at.error))
      && (Trim(s.entryTitle) != [] && at.Ok? && !Att.Distinct(Att.Names(s.attachments.attachments))
          ==> v == Err(Att.UniqueNamesCheck(s.attachments.attachments).error))
  {
  }

  /**
   * With the earlier checks passed, the first invalid extra field is
   * reported by its label and its reason.
   */
  lemma FirstInvalidFieldReported(s: State, ctx: Context, output: Path, i: nat, reason: EF.Reason)
    requires Trim(s.entryTitle) != []
    requires DateTimePicker.ToOffsetDateTime(s.datetime, ctx.zone(s.datetime)).Ok?
    requires Att.Distinct(Att.Names(s.attachments.attachments))
    requires i < |s.extraFields.fields| && EF.ValidateField(ctx.parsers, s.extraFields.fields[i]) == Some(reason)
    requires forall j :: 0 <= j < i ==> EF.ValidateField(ctx.parsers, s.extraFields.fields[j]).None?
    ensures SaveValidation(s, ctx, output) == Err(FieldMessage(s.extraFields.fields[i].fieldLabel, reason))
  {
    var bad := FirstInvalidField(ctx.parsers, s.extraFields.fields);
    assert !AllFieldsValid(ctx.parsers, s.extraFields.fields);
    assert !(bad.value.0 < i);
    assert !(i < bad.value.0);
  }

  /** Saving is accepted exactly when every check passes. */
  lemma SaveAccepted(s: State, ctx: Context, output: Path)
    ensures SaveValidation(s, ctx, output).Ok? <==>
      (&& Trim(s.entryTitle) != []
      && DateTimePicker.ToOffsetDateTime(s.datetime, ctx.zone(s.datetime)).Ok?
      && Att.Distinct(Att.Names(s.attachments.attachments))
      && AllFieldsValid(ctx.parsers, s.extraFields.fields))
  {
  }

  /** An accepted save pushes exactly one `SaveArchive` carrying the payload, and changes nothing. */
  lemma SaveEnqueued(s: State, ctx: Context, output: Path)
    requires SaveValidation(s, ctx, output).Ok?
    ensures SaveStep(s, ctx, output) == (s, [SaveArchive(SaveValidation(s, ctx, output).value)])
  {
  }

  /**
   * The payload of an accepted save: the title and the body trimmed, the
   * attachments in the model's order, the instant the picker gives, the
   * fields and groups as they are, and the keywords normalized.  So the
   * title is non-blank and trimmed, the archive names are distinct, every
   * field is valid and no two keywords are equal ignoring ASCII case.
   */
  lemma SavePayloadContents(s: State, ctx: Context, output: Path)
    requires SaveValidation(s, ctx, output).Ok?
    ensures var at := DateTimePicker.ToOffsetDateTime(s.datetime, ctx.zone(s.datetime));
      at.Ok? && SaveValidation(s, ctx, output).value == PayloadOf(s, ctx, output, at.value)
    ensures var p := SaveValidation(s, ctx, output).value;
      && p.title != [] && IsTrimmed(p.title) && Trim(p.title) == p.title
      && IsTrimmed(p.body)
      && Att.Distinct(Att.Names(p.attachments))
      && AllFieldsValid(ctx.parsers, p.extraFields)
      && (forall k, m :: 0 <= k < m < |p.keywords| ==> AsciiLower(p.keywords[k]) != AsciiLower(p.keywords[m]))
  {
    TrimIsTrimmed(s.entryTitle);
    TrimIsTrimmed(s.markdown.text);
    TrimIdempotent(s.entryTitle);
    KwDom.DedupUnique(s.keywords.keywords);
  }

  /** A refused save surfaces its error as both status and error, and pushes nothing. */
  lemma SaveRefused(s: State, ctx: Context, output: Path)
    requires SaveValidation(s, ctx, output).Err?
    ensures var e := SaveValidation(s, ctx, output).error;
      SaveStep(s, ctx, output) == (s.(status := Some(e), error := Some(e)), [])
  {
  }

  /** A field's message starts by naming the field, and different reasons give different messages. */
  lemma FieldMessageNamesField(name: string, r1: EF.Reason, r2: EF.Reason)
    ensures |FieldMessage(name, r1)| > 7 + |name|
    ensures FieldMessage(name, r1)[..7] == "Field '" && FieldMessage(name, r1)[7..7 + |name|] == name
    ensures FieldMessage(name, r1) == FieldMessage(name, r2) ==> r1 == r2
  {
    var m := FieldMessage(name, r1);
    assert m == "Field '" + name + m[7 + |name|..];
  }

  // ---------------------------------------------------------------------------
  // Invariants

  /**
   * What the program keeps true of its state: an error always has a status
   * line, and each component keeps its own invariant.
   */
  predicate Valid(s: State)
  {
    && ErrorShown(s)
    && MarkdownUi.Valid(s.markdown)
    && AttachmentsUi.Valid(s.attachments)
    && KeywordsUi.ValidKeywords(s.keywords.keywords)
    && DateTimePicker.Valid(s.datetime)
  }

  lemma AttachmentsStepValid(s: State, m: AttachmentsUi.Msg)
    requires Valid(s)
    ensures Valid(AttachmentsStep(s, m).0)
  {
    AttachmentsUi.StepValid(s.attachments, m);
  }

  lemma KeywordsStepValid(s: State, m: KeywordsUi.Msg)
    requires Valid(s)
    ensures Valid(KeywordsStep(s, m).0)
  {
    KeywordsUi.StepValid(s.keywords, m);
  }

  /** The component arms keep the state valid. */
  lemma ComponentStepValid(s: State, msg: Msg)
    requires IsComponentMsg(msg) && Valid(s)
    ensures Valid(ComponentStep(s, msg).0)
  {
    if msg.Markdown? {
      MarkdownUi.StepValid(s.markdown, msg.markdownMsg);
    } else if msg.Attachments? {
      AttachmentsStepValid(s, msg.attachmentsMsg);
    } else if msg.ThumbnailReady? {
      AttachmentsStepValid(s, AttachmentsUi.ThumbnailReady(msg.path, msg.texture));
    } else if msg.Keywords? {
      KeywordsStepValid(s, msg.keywordsMsg);
    } else if msg.ExtraFields? {
    } else {
      DateTimePicker.StepValid(s.datetime, msg.dateTimeMsg);
    }
  }

  /** Every message keeps the state valid. */
  lemma StepValid(s: State, ctx: Context, msg: Msg)
    requires Valid(s)
    ensures Valid(Step(s, ctx, msg).0)
  {
    if IsComponentMsg(msg) {
      ComponentStepValid(s, msg);
    }
  }

  /**
   * From the default application, every sequence of messages keeps an error
   * paired with a status, archive names distinct, keywords unique and
   * trimmed, and the toolbar and picker values in range.
   */
  lemma {:induction false} ReachableValid(now: DateTimePicker.ClockReading, ctx: Context, msgs: seq<Msg>)
    ensures Valid(Run(Default(now), ctx, msgs))
  {
    if msgs == [] {
      assert AttachmentsUi.Valid(AttachmentsUi.Initial);
    } else {
      ReachableValid(now, ctx, msgs[..|msgs| - 1]);
      StepValid(Run(Default(now), ctx, msgs[..|msgs| - 1]), ctx, msgs[|msgs| - 1]);
    }
  }

  // ---------------------------------------------------------------------------
  // Pushing translated commands

  /** The attachments' commands pushed one by one, translated. */
  method PushAttachmentCommands(cmds0: seq<Command>, cs: seq<AttachmentsUi.Command>) returns (cmds: seq<Command>)
    ensures cmds == cmds0 + TranslateAttachments(cs)
  {
    cmds := cmds0;
    for i := 0 to |cs|
      invariant cmds == cmds0 + TranslateAttachments(cs[..i])
    {
      var c := match cs[i]
        case PickFiles => PickFiles
        case HashFile(p) => HashFile(p, false)
        case LoadThumbnailCmd(p) => LoadThumbnail(p, false);
      assert TranslateAttachments(cs[..i + 1]) == TranslateAttachments(cs[..i]) + [c];
      cmds := cmds + [c];
    }
    assert cs[..|cs|] == cs;
  }

  /** The extra-fields' commands pushed one by one, translated. */
  method PushExtraFieldsCommands(cmds0: seq<Command>, cs: seq<ExtraFieldsUi.Command>) returns (cmds: seq<Command>)
    ensures cmds == cmds0 + TranslateExtraFields(cs)
  {
    cmds := cmds0;
    for i := 0 to |cs|
      invariant cmds == cmds0 + TranslateExtraFields(cs[..i])
    {
      assert TranslateExtraFields(cs[..i + 1]) == TranslateExtraFields(cs[..i]) + [PickExtraFieldsFile];
      cmds := cmds + [PickExtraFieldsFile];
    }
    assert cs[..|cs|] == cs;
  }

  /** The loop of `validate_for_save` over the extra fields: the first one that fails, with its reason. */
  method FindInvalidField(p: EF.Parsers, fields: seq<EF.ExtraField>) returns (bad: Option<(nat, EF.Reason)>)
    ensures bad == FirstInvalidField(p, fields)
  {
    for i := 0 to |fields|
      invariant forall j :: 0 <= j < i ==> EF.ValidateField(p, fields[j]).None?
    {
      var reason := EF.ValidateField(p, fields[i]);
      if reason.Some? {
        assert !AllFieldsValid(p, fields);
        return Some((i, reason.value));
      }
    }
    return None;
  }

  // ---------------------------------------------------------------------------
  // The model object

  /** `AppModel`, updated in place by `update`. */
  class AppModel {
    var entryTitle: string
    var archiveGenre: ElnNames.Genre
    var bodyFormat: ElnArchive.BodyFormat
    var markdown: MarkdownUi.State
    var attachments: AttachmentsUi.State
    var keywords: KeywordsUi.State
    var extraFields: ExtraFieldsUi.State
    var datetime: DateTimePicker.State
    var status: Option<string>
    var error: Option<string>
    var pendingCommands: nat

    function Snapshot(): State
      reads this
    {
      State(entryTitle, archiveGenre, bodyFormat, markdown, attachments, keywords, extraFields, datetime,
        status, error, pendingCommands)
    }

    /** `AppModel::default()`, with the picker at the clock's reading. */
    constructor (now: DateTimePicker.ClockReading)
      ensures Snapshot() == Default(now)
    {
      entryTitle, archiveGenre, bodyFormat := "", ElnNames.Experiment, ElnArchive.Html;
      markdown, attachments, keywords, extraFields := MarkdownUi.Initial, AttachmentsUi.Initial, KeywordsUi.Initial, ExtraFieldsUi.Initial;
      datetime := DateTimePicker.Default(now);
      status, error, pendingCommands := None, None, 0;
    }

    /** `surface_event`. */
    method SurfaceEvent(message: string, isError: bool)
      modifies this
      ensures Snapshot() == Surfaced(old(Snapshot()), message, isError)
    {
      if isError {
        error := Some(message);
      }
      status := Some(message);
    }

    /** `validate_for_save`: the checks in order, the fields one by one. */
    method ValidateForSave(ctx: Context, output: Path) returns (r: Result<SavePayload, string>)
      ensures r == SaveValidation(Snapshot(), ctx, output)
    {
      var title := Trim(entryTitle);
      if title == [] {
        return Err(TITLE_REQUIRED);
      }
      var body := Trim(markdown.text);
      var normalized := new KwDom.Keywords(keywords.keywords);
      var kws := normalized.IntoVec();
      var performedAt := DateTimePicker.ToOffsetDateTime(datetime, ctx.zone(datetime));
      if performedAt.Err? {
        return Err(DATETIME_PREFIX + performedAt.error);
      }
      var unique := Att.AssertUniqueSanitizedNames(attachments.attachments);
      if unique.Err? {
        return Err(unique.error);
      }
      var bad := FindInvalidField(ctx.parsers, extraFields.fields);
      if bad.Some? {
        return Err(FieldMessage(extraFields.fields[bad.value.0].fieldLabel, bad.value.1));
      }
      return Ok(ElnArchive.Request(output, title, body, attachments.attachments, extraFields.fields, extraFields.groups,
        performedAt.value, archiveGenre, kws, bodyFormat));
    }

    /** `SaveRequested`: the payload is enqueued, or the error surfaced. */
    method RequestSave(ctx: Context, output: Path, cmds0: seq<Command>) returns (cmds: seq<Command>)
      modifies this
      ensures Snapshot() == SaveStep(old(Snapshot()), ctx, output).0
      ensures cmds == cmds0 + SaveStep(old(Snapshot()), ctx, output).1
    {
      var v := ValidateForSave(ctx, output);
      if v.Ok? {
        cmds := cmds0 + [SaveArchive(v.value)];
      } else {
        SurfaceEvent(v.error, true);
        cmds := cmds0;
      }
    }

    /** The attachments arm: the component updated, its event surfaced, its commands pushed. */
    method UpdateAttachments(m: AttachmentsUi.Msg, cmds0: seq<Command>) returns (cmds: seq<Command>)
      modifies this
      ensures Snapshot() == AttachmentsStep(old(Snapshot()), m).0
      ensures cmds == cmds0 + AttachmentsStep(old(Snapshot()), m).1
    {
      var r := AttachmentsUi.Step(attachments, m);
      attachments := r.0;
      if r.2.Some? {
        SurfaceEvent(r.2.value.message, r.2.value.isError);
      }
      cmds := PushAttachmentCommands(cmds0, r.1);
    }

    /** The keywords arm: the component updated, its event surfaced. */
    method UpdateKeywords(m: KeywordsUi.Msg)
      modifies this
      ensures Snapshot() == KeywordsStep(old(Snapshot()), m).0
    {
      var r := KeywordsUi.Step(keywords, m);
      keywords := r.0;
      if r.1.Some? {
        SurfaceEvent(r.1.value.message, r.1.value.isError);
      }
    }

    /** The extra-fields arm: the component updated, its event surfaced, its commands pushed. */
    method UpdateExtraFields(m: ExtraFieldsUi.Msg, cmds0: seq<Command>) returns (cmds: seq<Command>)
      modifies this
      ensures Snapshot() == ExtraFieldsStep(old(Snapshot()), m).0
      ensures cmds == cmds0 + ExtraFieldsStep(old(Snapshot()), m).1
    {
      var r := ExtraFieldsUi.Step(extraFields, m);
      extraFields := r.0;
      if r.2.Some? {
        SurfaceEvent(r.2.value.message, r.2.value.isError);
      }
      cmds := PushExtraFieldsCommands(cmds0, r.1);
    }

    /** `SaveCompleted`: the outcome reported. */
    method ReportSaved(result: Result<Path, string>)
      modifies this
      ensures Snapshot() == CompletedStep(old(Snapshot()), result)
    {
      match result
      case Ok(path) => SurfaceEvent(ARCHIVE_SAVED + path, false);
      case Err(e) => SurfaceEvent(SAVE_FAILED + e, true);
    }

    /** `update`: applies one message and pushes its commands after `cmds0`. */
    method Update(msg: Msg, ctx: Context, cmds0: seq<Command>) returns (cmds: seq<Command>)
      modifies this
      ensures Snapshot() == Step(old(Snapshot()), ctx, msg).0
      ensures cmds == cmds0 + Step(old(Snapshot()), ctx, msg).1
    {
      if IsComponentMsg(msg) {
        cmds := UpdateComponent(msg, cmds0);
      } else {
        cmds := UpdateRoot(msg, ctx, cmds0);
      }
    }

    /** The arms of `update` that hand the message to a component. */
    method UpdateComponent(msg: Msg, cmds0: seq<Command>) returns (cmds: seq<Command>)
      requires IsComponentMsg(msg)
      modifies this
      ensures Snapshot() == ComponentStep(old(Snapshot()), msg).0
      ensures cmds == cmds0 + ComponentStep(old(Snapshot()), msg).1
    {
      cmds := cmds0;
      if msg.Markdown? {
        markdown := MarkdownUi.Step(markdown, msg.markdownMsg);
      } else if msg.Attachments? {
        cmds := UpdateAttachments(msg.attachmentsMsg, cmds0);
      } else if msg.ThumbnailReady? {
        cmds := UpdateAttachments(AttachmentsUi.ThumbnailReady(msg.path, msg.texture), cmds0);
      } else if msg.Keywords? {
        UpdateKeywords(msg.keywordsMsg);
      } else if msg.ExtraFields? {
        cmds := UpdateExtraFields(msg.extraFieldsMsg, cmds0);
      } else {
        datetime := DateTimePicker.Step(datetime, msg.dateTimeMsg);
      }
    }

    /** The arms of `update` that the root model handles itself. */
    method UpdateRoot(msg: Msg, ctx: Context, cmds0: seq<Command>) returns (cmds: seq<Command>)
      requires !IsComponentMsg(msg)
      modifies this
      ensures Snapshot() == RootStep(old(Snapshot()), ctx, msg).0
      ensures cmds == cmds0 + RootStep(old(Snapshot()), ctx, msg).1
    {
      cmds := cmds0;
      if msg.EntryTitleChanged? {
        entryTitle := msg.text;
      } else if msg.SetGenre? {
        archiveGenre := msg.genre;
      } else if msg.SetBodyFormat? {
        bodyFormat := msg.format;
      } else if msg.DismissError? {
        error := None;
      } else if msg.ThumbnailDecoded? {
      } else if msg.SaveRequested? {
        cmds := RequestSave(ctx, msg.output, cmds0);
      } else if msg.SaveCancelled? {
        SurfaceEvent(SAVE_CANCELLED, false);
      } else {
        ReportSaved(msg.result);
      }
    }
  }
}
