/**
 * The extra-fields editor: the imported fields and groups, per-field value
 * edits, the field dialog with its draft, and group management.  `Step` is
 * the reducer as a value; the class `ExtraFieldsModel` performs it on its
 * fields.
 *
 * Integer conversions follow a release build of the program: `max + 1` on
 * an `i32` id and `len() as i32` wrap around (`WrapI32`).
 */
module ExtraFieldsUi {
  import opened Wrappers
  import opened Text
  import opened DomainExtraFields

  /** `FieldDraft`: the values being edited in the field dialog. */
  datatype Draft = Draft(
    draftLabel: string,
    description: string,
    required: bool,
    allowMultiValues: bool,
    options: seq<string>,
    units: seq<string>,
    unit: string,
    kind: Kind,
    groupId: Option<I32>)

  /** `FieldDraft::default()`. */
  const DefaultDraft: Draft := Draft("", "", false, false, [], [], "", Text, None)

  /** `ExtraFieldsMsg`. */
  datatype Msg =
    | DraftKindChanged(kind: Kind)
    | RemoveField(index: nat)
    | ImportRequested
    | ImportCancelled
    | ImportLoaded(fields: seq<ExtraField>, groups: seq<ExtraFieldGroup>, source: string)
    | ImportFailed(text: string)
    | EditValue(index: nat, value: string)
    | ToggleCheckbox(index: nat, checked: bool)
    | SelectUnit(index: nat, value: string)
    | UpdateMulti(index: nat, values: seq<string>)
    | StartEditGroup(index: nat)
    | EditGroupName(text: string)
    | CommitGroupName
    | CancelGroupEdit
    | RemoveGroup(index: nat)
    | AddGroup
    | StartAddField(groupId: Option<I32>)
    | OpenFieldModal(index: nat)
    | CloseFieldModal
    | DraftLabelChanged(text: string)
    | DraftDescChanged(text: string)
    | DraftRequiredToggled(flag: bool)
    | DraftAllowMultiToggled(flag: bool)
    | DraftOptionChanged(index: nat, value: string)
    | DraftAddOption
    | DraftRemoveOption(index: nat)
    | DraftUnitChanged(index: nat, value: string)
    | DraftAddUnit
    | DraftRemoveUnit(index: nat)
    | DraftDefaultUnitChanged(text: string)
    | DraftGroupChanged(groupId: Option<I32>)
    | CommitFieldModal

  /** `ExtraFieldsCommand`. */
  datatype Command = PickMetadataFile

  /** `ExtraFieldsEvent`. */
  datatype Event = Event(message: string, isError: bool)

  /** The fields of `ExtraFieldsModel`. */
  datatype State = State(
    fields: seq<ExtraField>,
    groups: seq<ExtraFieldGroup>,
    editingGroup: Option<nat>,
    editingGroupBuffer: string,
    editingField: Option<nat>,
    modalOpen: bool,
    modalDraft: Option<Draft>)

  /** `ExtraFieldsModel::default()`. */
  const Initial: State := State([], [], None, "", None, false, None)

  const DefaultName: string := "Default"
  const NotUnique: string := "Field name must be unique"
  const ImportCancelledMessage: string := "Metadata import cancelled."

  // ---------------------------------------------------------------------------
  // Groups

  /** The largest group id of a non-empty list. */
  function MaxId(gs: seq<ExtraFieldGroup>): (m: I32)
    requires gs != []
    ensures forall i :: 0 <= i < |gs| ==> gs[i].id <= m
    ensures exists i :: 0 <= i < |gs| && gs[i].id == m
  {
    if |gs| == 1 then gs[0].id
    else
      var m := MaxId(gs[..|gs| - 1]);
      assert forall i :: 0 <= i < |gs| - 1 ==> gs[..|gs| - 1][i] == gs[i];
      if gs[|gs| - 1].id > m then gs[|gs| - 1].id else m
  }

  /** `groups.iter().map(|g| g.id).max().unwrap_or(0) + 1`, wrapping like `i32` addition. */
  function NextId(gs: seq<ExtraFieldGroup>): I32
  {
    WrapI32((if gs == [] then 0 else MaxId(gs)) + 1)
  }

  /** The first group named `name`. */
  function FindNamed(gs: seq<ExtraFieldGroup>, name: string): (r: Option<nat>)
    ensures r.Some? ==> (r.value < |gs| && gs[r.value].name == name
      && forall j :: 0 <= j < r.value ==> gs[j].name != name)
    ensures r.None? ==> forall j :: 0 <= j < |gs| ==> gs[j].name != name
  {
    if gs == [] then None
    else if gs[0].name == name then Some(0)
    else match FindNamed(gs[1..], name)
      case None => None
      case Some(i) => Some(i + 1)
  }

  /** The first group with id `id`. */
  function FindId(gs: seq<ExtraFieldGroup>, id: I32): (r: Option<nat>)
    ensures r.Some? ==> (r.value < |gs| && gs[r.value].id == id
      && forall j :: 0 <= j < r.value ==> gs[j].id != id)
    ensures r.None? ==> forall j :: 0 <= j < |gs| ==> gs[j].id != id
  {
    if gs == [] then None
    else if gs[0].id == id then Some(0)
    else match FindId(gs[1..], id)
      case None => None
      case Some(i) => Some(i + 1)
  }

  /**
   * `ensure_default_group` as a value: the new groups and the returned id.
   * The first group named `"Default"` is reused; otherwise one is appended.
   */
  function EnsuredDefault(gs: seq<ExtraFieldGroup>): (r: (seq<ExtraFieldGroup>, I32))
  {
    match FindNamed(gs, DefaultName)
    case Some(i) => (gs, gs[i].id)
    case None =>
      var id := NextId(gs);
      (gs + [ExtraFieldGroup(id, DefaultName, WrapI32(|gs|))], id)
  }

  /** Group `a` comes no later than group `b` by `(position, id)`. */
  predicate GroupLe(a: ExtraFieldGroup, b: ExtraFieldGroup)
  {
    a.position < b.position || (a.position == b.position && a.id <= b.id)
  }

  /** `min_by_key(|g| (g.position, g.id))`: the first group with the least key. */
  function MinGroup(gs: seq<ExtraFieldGroup>): (i: nat)
    requires gs != []
    ensures i < |gs| && forall j :: 0 <= j < |gs| ==> GroupLe(gs[i], gs[j])
  {
    if |gs| == 1 then 0
    else
      var k := MinGroup(gs[..|gs| - 1]);
      assert forall j :: 0 <= j < |gs| - 1 ==> gs[..|gs| - 1][j] == gs[j];
      if !GroupLe(gs[k], gs[|gs| - 1]) then |gs| - 1 else k
  }

  /** `lowest_position_group_id` as a value: with no groups a Default group is created. */
  function LowestPosition(gs: seq<ExtraFieldGroup>): (r: (seq<ExtraFieldGroup>, I32))
  {
    if gs == [] then EnsuredDefault(gs) else (gs, gs[MinGroup(gs)].id)
  }

  /** `display_group_name`: the first matching group's name, `"Default"` when there is none. */
  function DisplayGroupName(gs: seq<ExtraFieldGroup>, groupId: Option<I32>): string
  {
    match groupId
    case None => DefaultName
    case Some(id) =>
      match FindId(gs, id)
      case None => DefaultName
      case Some(i) => gs[i].name
  }

  /** `AddGroup`: a group with the next id, named after it, at the end. */
  function AddedGroup(gs: seq<ExtraFieldGroup>): seq<ExtraFieldGroup>
  {
    var id := NextId(gs);
    gs + [ExtraFieldGroup(id, "Group " + IntToString(id), WrapI32(|gs|))]
  }

  predicate UniqueIds(gs: seq<ExtraFieldGroup>)
  {
    forall i, j :: 0 <= i < j < |gs| ==> gs[i].id != gs[j].id
  }

  // ---------------------------------------------------------------------------
  // Field helpers

  /** The part of `split_multi` after the split: trim each part and drop the empty ones. */
  function KeepNonBlank(parts: seq<string>): seq<string>
  {
    if parts == [] then []
    else (if Trim(parts[0]) != [] then [Trim(parts[0])] else []) + KeepNonBlank(parts[1..])
  }

  /** `split_multi`: the comma-separated items, trimmed, without empty ones. */
  function SplitMulti(value: string): seq<string>
  {
    KeepNonBlank(Split(value, ','))
  }

  /** `trimmed_or_none`. */
  function TrimmedOrNone(input: string): (r: Option<string>)
  {
    if Trim(input) == [] then None else Some(Trim(input))
  }

  /**
   * `name_conflict` as written: the key is lowercased with Unicode rules
   * but compared with `eq_ignore_ascii_case`.
   */
  predicate NameConflictAsWritten(fields: seq<ExtraField>, fieldLabel: string, editing: Option<nat>)
  {
    var key := UnicodeLower(Trim(fieldLabel));
    key != [] && exists i :: (0 <= i < |fields| && Some(i) != editing
      && EqIgnoreAsciiCase(Trim(fields[i].fieldLabel), key))
  }

  /**
   * `name_conflict` as intended: another field's trimmed label equals the
   * trimmed label ignoring case; a blank label never conflicts.
   */
  predicate NameConflict(fields: seq<ExtraField>, fieldLabel: string, editing: Option<nat>)
  {
    var key := UnicodeLower(Trim(fieldLabel));
    key != [] && exists i :: (0 <= i < |fields| && Some(i) != editing
      && UnicodeLower(Trim(fields[i].fieldLabel)) == key)
  }

  /** The dialog's draft for an existing field. */
  function DraftOf(f: ExtraField): Draft
  {
    Draft(f.fieldLabel, f.description.UnwrapOr(""), f.required, f.allowMultiValues, f.options, f.units,
      f.unit.UnwrapOr(""), f.kind, f.groupId)
  }

  /**
   * `apply_draft_to_field` as a value: a non-blank label replaces the
   * label; description, flags and group are copied; options only for
   * Select and Radio, units and unit only for Number.
   */
  function AppliedDraft(d: Draft, f: ExtraField): ExtraField
  {
    var newLabel := Trim(d.draftLabel);
    var isChoice := f.kind.Select? || f.kind.Radio?;
    var isNumber := f.kind.Number?;
    f.(fieldLabel := if newLabel != [] then newLabel else f.fieldLabel,
       description := TrimmedOrNone(d.description),
       required := d.required,
       allowMultiValues := d.allowMultiValues,
       groupId := d.groupId,
       options := if isChoice then d.options else f.options,
       units := if isNumber then d.units else f.units,
       unit := if isNumber then TrimmedOrNone(d.unit) else f.unit)
  }

  /** The blank field `CommitFieldModal` creates before the draft is applied. */
  function NewField(fieldLabel: string, kind: Kind, groupId: Option<I32>, position: I32): ExtraField
  {
    ExtraField(fieldLabel, kind, "", [], [], None, [], Some(position), false, None, false, false, groupId, false)
  }

  /** Moving one field from group `from` to group `to`. */
  function Reassign(from: I32, to: I32): ExtraField -> ExtraField
  {
    (f: ExtraField) => if f.groupId == Some(from) then f.(groupId := Some(to)) else f
  }

  /** Every field of group `from` moved to group `to`. */
  function Reassigned(fields: seq<ExtraField>, from: I32, to: I32): seq<ExtraField>
  {
    MapSeq(Reassign(from, to), fields)
  }

  // ---------------------------------------------------------------------------
  // The reducer

  predicate IsFieldEdit(msg: Msg)
  {
    msg.EditValue? || msg.ToggleCheckbox? || msg.SelectUnit? || msg.UpdateMulti?
  }

  predicate IsDraftEdit(msg: Msg)
  {
    msg.DraftKindChanged? || msg.DraftLabelChanged? || msg.DraftDescChanged? || msg.DraftRequiredToggled?
    || msg.DraftAllowMultiToggled? || msg.DraftOptionChanged? || msg.DraftAddOption? || msg.DraftRemoveOption?
    || msg.DraftUnitChanged? || msg.DraftAddUnit? || msg.DraftRemoveUnit? || msg.DraftDefaultUnitChanged?
    || msg.DraftGroupChanged?
  }

  /** A value edit applied to one field. */
  function EditedField(f: ExtraField, msg: Msg): ExtraField
  {
    match msg
    case EditValue(_, value) =>
      if f.allowMultiValues then f.(value := value, valueMulti := SplitMulti(value)) else f.(value := value)
    case ToggleCheckbox(_, checked) => f.(value := if checked then "on" else "")
    case SelectUnit(_, unit) => f.(unit := Some(unit))
    case UpdateMulti(_, values) => f.(valueMulti := values, value := Join(values, ", "))
    case _ => f
  }

  /** A draft edit; changing the kind is honoured only while creating a field. */
  function EditedDraft(d: Draft, msg: Msg, creating: bool): Draft
  {
    match msg
    case DraftKindChanged(kind) =>
      if creating then d.(kind := kind, options := [], units := [], unit := "", allowMultiValues := false) else d
    case DraftLabelChanged(text) => d.(draftLabel := text)
    case DraftDescChanged(text) => d.(description := text)
    case DraftRequiredToggled(flag) => d.(required := flag)
    case DraftAllowMultiToggled(flag) => d.(allowMultiValues := flag)
    case DraftOptionChanged(i, value) => if i < |d.options| then d.(options := d.options[i := value]) else d
    case DraftAddOption => d.(options := d.options + [""])
    case DraftRemoveOption(i) => if i < |d.options| then d.(options := d.options[..i] + d.options[i + 1..]) else d
    case DraftUnitChanged(i, value) => if i < |d.units| then d.(units := d.units[i := value]) else d
    case DraftAddUnit => d.(units := d.units + [""])
    case DraftRemoveUnit(i) => if i < |d.units| then d.(units := d.units[..i] + d.units[i + 1..]) else d
    case DraftDefaultUnitChanged(text) => d.(unit := text)
    case DraftGroupChanged(g) => d.(groupId := g)
    case _ => d
  }

  /** The fields after an accepted dialog, and the groups (a Default group may be created). */
  function SavedDraft(s: State, d: Draft): (r: (seq<ExtraField>, seq<ExtraFieldGroup>))
  {
    match s.editingField
    case Some(idx) =>
      (if idx < |s.fields| then s.fields[idx := AppliedDraft(d, s.fields[idx])] else s.fields, s.groups)
    case None =>
      var newLabel := Trim(d.draftLabel);
      if newLabel == [] then (s.fields, s.groups)
      else
        var (gs, preferred) := LowestPosition(s.groups);
        var d' := d.(groupId := if d.groupId.Some? then d.groupId else Some(preferred));
        (s.fields + [AppliedDraft(d', NewField(newLabel, d'.kind, d'.groupId, WrapI32(|s.fields|)))], gs)
  }

  /**
   * `CommitFieldModal`: a conflicting label keeps everything, the dialog and
   * its draft included, and reports an error; otherwise the draft is saved
   * and the dialog closes.
   */
  function CommittedFieldModal(s: State): (r: (State, Option<Event>))
  {
    match s.modalDraft
    case None => (s.(modalOpen := false, editingField := None), None)
    case Some(d) =>
      if NameConflict(s.fields, d.draftLabel, s.editingField) then (s, Some(Event(NotUnique, true)))
      else
        var (fs, gs) := SavedDraft(s, d);
        (s.(fields := fs, groups := gs, modalDraft := None, modalOpen := false, editingField := None), None)
  }

  /**
   * `RemoveGroup`: with one group left it is renamed `"Default"` and its
   * fields keep their id; otherwise the group is removed and its fields move
   * to the Default group.
   */
  function RemovedGroup(s: State, idx: nat): State
  {
    if idx < |s.groups| then
      var group := s.groups[idx];
      if |s.groups| == 1 then
        s.(groups := s.groups[idx := group.(name := DefaultName)], fields := Reassigned(s.fields, group.id, group.id))
      else
        var (gs, defaultId) := EnsuredDefault(s.groups[..idx] + s.groups[idx + 1..]);
        s.(groups := gs, fields := Reassigned(s.fields, group.id, defaultId))
    else s
  }

  predicate IsGroupMsg(msg: Msg)
  {
    msg.StartEditGroup? || msg.AddGroup? || msg.EditGroupName? || msg.CommitGroupName? || msg.CancelGroupEdit?
    || msg.RemoveGroup?
  }

  predicate IsDialogMsg(msg: Msg)
  {
    msg.OpenFieldModal? || msg.CloseFieldModal? || msg.StartAddField? || msg.RemoveField? || msg.CommitFieldModal?
  }

  /** `StartEditGroup`: the group's name is copied into the edit buffer. */
  function StartedGroupEdit(s: State, idx: nat): State
  {
    if idx < |s.groups| then s.(editingGroup := Some(idx), editingGroupBuffer := s.groups[idx].name) else s
  }

  /** `CommitGroupName`: the trimmed buffer becomes the edited group's name and editing ends. */
  function CommittedGroupName(s: State): State
  {
    var gs := match s.editingGroup
      case Some(idx) => if idx < |s.groups| then s.groups[idx := s.groups[idx].(name := Trim(s.editingGroupBuffer))] else s.groups
      case None => s.groups;
    s.(groups := gs, editingGroup := None, editingGroupBuffer := "")
  }

  /** `OpenFieldModal`: the dialog opens on a draft copied from the field. */
  function OpenedFieldModal(s: State, idx: nat): State
  {
    if idx < |s.fields| then s.(modalOpen := true, editingField := Some(idx), modalDraft := Some(DraftOf(s.fields[idx])))
    else s
  }

  /** `StartAddField`: the dialog opens on a default draft in the given group or the lowest-positioned one. */
  function StartedAddField(s: State, groupId: Option<I32>): State
  {
    var (gs, preferred) := LowestPosition(s.groups);
    var d := DefaultDraft.(groupId := if groupId.Some? then groupId else Some(preferred));
    s.(modalOpen := true, editingField := None, groups := gs, modalDraft := Some(d))
  }

  /** `RemoveField`: the field at `idx` is dropped. */
  function RemovedField(s: State, idx: nat): State
  {
    if idx < |s.fields| then s.(fields := s.fields[..idx] + s.fields[idx + 1..]) else s
  }

  /** `ImportLoaded`: the imported fields, sorted, and groups replace the current ones. */
  function LoadedImport(s: State, fields: seq<ExtraField>, groups: seq<ExtraFieldGroup>, source: string): (State, Option<Event>)
  {
    var sorted := SortFields(fields);
    (s.(fields := sorted, groups := groups, editingGroup := None, editingGroupBuffer := ""),
     Some(Event("Imported " + NatToString(|sorted|) + " field(s) from " + source, false)))
  }

  /** The group messages. */
  function GroupStep(s: State, msg: Msg): State
  {
    if msg.StartEditGroup? then StartedGroupEdit(s, msg.index)
    else if msg.AddGroup? then s.(groups := AddedGroup(s.groups))
    else if msg.EditGroupName? then s.(editingGroupBuffer := msg.text)
    else if msg.CommitGroupName? then CommittedGroupName(s)
    else if msg.CancelGroupEdit? then s.(editingGroup := None, editingGroupBuffer := "")
    else if msg.RemoveGroup? then RemovedGroup(s, msg.index)
    else s
  }

  /** The messages that open, close and commit the field dialog, and field removal. */
  function DialogStep(s: State, msg: Msg): (r: (State, Option<Event>))
  {
    if msg.OpenFieldModal? then (OpenedFieldModal(s, msg.index), None)
    else if msg.CloseFieldModal? then (s.(modalOpen := false, modalDraft := None, editingField := None), None)
    else if msg.StartAddField? then (StartedAddField(s, msg.groupId), None)
    else if msg.RemoveField? then (RemovedField(s, msg.index), None)
    else if msg.CommitFieldModal? then CommittedFieldModal(s)
    else (s, None)
  }

  /** The import messages. */
  function ImportStep(s: State, msg: Msg): (State, seq<Command>, Option<Event>)
  {
    if msg.ImportRequested? then (s, [PickMetadataFile], None)
    else if msg.ImportCancelled? then (s, [], Some(Event(ImportCancelledMessage, false)))
    else if msg.ImportFailed? then (s, [], Some(Event(msg.text, true)))
    else if msg.ImportLoaded? then
      (LoadedImport(s, msg.fields, msg.groups, msg.source).0, [], LoadedImport(s, msg.fields, msg.groups, msg.source).1)
    else (s, [], None)
  }

  /** The messages that edit one field in place. */
  function FieldEditStep(s: State, msg: Msg): State
    requires IsFieldEdit(msg)
  {
    if msg.index < |s.fields| then s.(fields := s.fields[msg.index := EditedField(s.fields[msg.index], msg)]) else s
  }

  /** The messages that edit the draft of the open dialog. */
  function DraftEditStep(s: State, msg: Msg): State
  {
    match s.modalDraft
    case None => s
    case Some(d) => s.(modalDraft := Some(EditedDraft(d, msg, s.editingField.None?)))
  }

  /** `update` as a value: the new state, the commands pushed, and the feedback event. */
  function Step(s: State, msg: Msg): (r: (State, seq<Command>, Option<Event>))
  {
    if IsFieldEdit(msg) then (FieldEditStep(s, msg), [], None)
    else if IsDraftEdit(msg) then (DraftEditStep(s, msg), [], None)
    else if IsGroupMsg(msg) then (GroupStep(s, msg), [], None)
    else if IsDialogMsg(msg) then (DialogStep(s, msg).0, [], DialogStep(s, msg).1)
    else ImportStep(s, msg)
  }

  // ---------------------------------------------------------------------------
  // Properties of the group helpers

  /** An existing group named `"Default"` is reused: nothing changes and the first one's id is returned. */
  lemma EnsureDefaultReuses(gs: seq<ExtraFieldGroup>, i: nat)
    requires i < |gs| && gs[i].name == DefaultName
    requires forall j :: 0 <= j < i ==> gs[j].name != DefaultName
    ensures EnsuredDefault(gs) == (gs, gs[i].id)
  {
  }

  /**
   * Without a group named `"Default"`, one is appended with id one more
   * than the largest (1 when there are no groups) and the old length as
   * position; unless the ids are exhausted, the new id exceeds every other.
   */
  lemma EnsureDefaultAppends(gs: seq<ExtraFieldGroup>)
    requires forall j :: 0 <= j < |gs| ==> gs[j].name != DefaultName
    ensures var (gs', id) := EnsuredDefault(gs);
      gs' == gs + [ExtraFieldGroup(id, DefaultName, WrapI32(|gs|))]
      && (gs == [] ==> id == 1)
      && (gs != [] && MaxId(gs) < I32_MAX ==> id == MaxId(gs) + 1)
      && (|gs| <= I32_MAX ==> gs'[|gs|].position == |gs|)
  {
    assert FindNamed(gs, DefaultName).None?;
    var id := NextId(gs);
    assert EnsuredDefault(gs) == (gs + [ExtraFieldGroup(id, DefaultName, WrapI32(|gs|))], id);
    if gs != [] && MaxId(gs) < I32_MAX {
      assert I32_MIN <= MaxId(gs) + 1 <= I32_MAX;
    }
  }

  /** The returned id always belongs to a group named `"Default"`. */
  lemma EnsureDefaultNamesId(gs: seq<ExtraFieldGroup>)
    ensures var (gs', id) := EnsuredDefault(gs);
      exists i :: 0 <= i < |gs'| && gs'[i].name == DefaultName && gs'[i].id == id
  {
    var (gs', id) := EnsuredDefault(gs);
    if FindNamed(gs, DefaultName).None? {
      assert gs'[|gs|].name == DefaultName && gs'[|gs|].id == id;
    }
  }

  /** `NextId` exceeds every existing id unless the largest id is already `i32::MAX`. */
  lemma NextIdFresh(gs: seq<ExtraFieldGroup>)
    requires gs == [] || MaxId(gs) < I32_MAX
    ensures forall i :: 0 <= i < |gs| ==> gs[i].id < NextId(gs)
  {
  }

  /** `AddGroup` appends a group whose id is greater than every other, so unique ids stay unique. */
  lemma AddGroupKeepsIdsUnique(gs: seq<ExtraFieldGroup>)
    requires UniqueIds(gs) && (gs == [] || MaxId(gs) < I32_MAX)
    ensures var gs' := AddedGroup(gs);
      |gs'| == |gs| + 1 && gs'[..|gs|] == gs
      && (forall i :: 0 <= i < |gs| ==> gs[i].id < gs'[|gs|].id)
      && UniqueIds(gs')
  {
    NextIdFresh(gs);
    var gs' := AddedGroup(gs);
    assert gs'[..|gs|] == gs;
  }

  /**
   * With groups present, the lowest-position group is returned, ties going
   * to the lower id, and nothing is created; with none, a Default group is.
   */
  lemma LowestPositionSpec(gs: seq<ExtraFieldGroup>)
    ensures var (gs', id) := LowestPosition(gs);
      (gs != [] ==> (gs' == gs
        && exists i :: 0 <= i < |gs| && gs[i].id == id && forall j :: 0 <= j < |gs| ==> GroupLe(gs[i], gs[j])))
      && (gs == [] ==> gs' == [ExtraFieldGroup(1, DefaultName, 0)] && id == 1)
  {
    if gs != [] {
      var i := MinGroup(gs);
      assert gs[i].id == LowestPosition(gs).1;
    }
  }

  /** The display name is the first group with that id, or `"Default"`. */
  lemma DisplayGroupNameSpec(gs: seq<ExtraFieldGroup>, groupId: Option<I32>)
    ensures groupId.None? ==> DisplayGroupName(gs, groupId) == DefaultName
    ensures groupId.Some? && (forall j :: 0 <= j < |gs| ==> gs[j].id != groupId.value) ==>
      DisplayGroupName(gs, groupId) == DefaultName
    ensures forall i :: 0 <= i < |gs| && groupId == Some(gs[i].id) && (forall j :: 0 <= j < i ==> gs[j].id != gs[i].id) ==>
      DisplayGroupName(gs, groupId) == gs[i].name
  {
    forall i | 0 <= i < |gs| && groupId == Some(gs[i].id) && (forall j :: 0 <= j < i ==> gs[j].id != gs[i].id)
      ensures DisplayGroupName(gs, groupId) == gs[i].name
    {
      var k := FindId(gs, gs[i].id).value;
      assert k == i;
    }
  }

  // ---------------------------------------------------------------------------
  // Properties of the field helpers

  /** Every item of `split_multi` is non-empty, trimmed and free of commas. */
  lemma {:induction false} KeepNonBlankClean(parts: seq<string>)
    requires forall k :: 0 <= k < |parts| ==> ',' !in parts[k]
    ensures forall k :: 0 <= k < |KeepNonBlank(parts)| ==>
      KeepNonBlank(parts)[k] != [] && IsTrimmed(KeepNonBlank(parts)[k]) && ',' !in KeepNonBlank(parts)[k]
  {
    if parts != [] {
      KeepNonBlankClean(parts[1..]);
      TrimIsTrimmedInfix(parts[0]);
      var t := Trim(parts[0]);
      assert forall c :: c in t ==> c in parts[0];
    }
  }

  lemma SplitMultiClean(value: string)
    ensures forall k :: 0 <= k < |SplitMulti(value)| ==>
      SplitMulti(value)[k] != [] && IsTrimmed(SplitMulti(value)[k]) && ',' !in SplitMulti(value)[k]
  {
    KeepNonBlankClean(Split(value, ','));
  }

  /** Items that are non-empty, trimmed and comma-free. */
  predicate CleanItems(xs: seq<string>)
  {
    forall k :: 0 <= k < |xs| ==> xs[k] != [] && IsTrimmed(xs[k]) && ',' !in xs[k]
  }

  lemma {:induction false} SplitMultiJoinAfter(w: string, xs: seq<string>)
    requires AllWhitespace(w) && ',' !in w && CleanItems(xs)
    ensures KeepNonBlank(Split(w + Join(xs, ", "), ',')) == xs
    decreases |xs|
  {
    if xs == [] {
      assert w + Join(xs, ", ") == w;
      TrimEmptyIffBlank(w);
    } else if |xs| == 1 {
      assert w + Join(xs, ", ") == w + xs[0];
      assert ',' !in w + xs[0];
      TrimWhitespacePrefix(w, xs[0]);
    } else {
      var rest := Join(xs[1..], ", ");
      assert w + Join(xs, ", ") == (w + xs[0]) + [','] + (" " + rest);
      assert ',' !in w + xs[0];
      SplitFirst(w + xs[0], " " + rest, ',');
      TrimWhitespacePrefix(w, xs[0]);
      SplitMultiJoinAfter(" ", xs[1..]);
      var parts := Split(w + Join(xs, ", "), ',');
      assert parts[1..] == Split(" " + rest, ',');
    }
  }

  /**
   * `UpdateMulti` and `EditValue` agree: splitting the `", "`-joined
   * values gives them back when they are non-empty, trimmed and comma-free.
   */
  lemma SplitMultiJoin(xs: seq<string>)
    requires CleanItems(xs)
    ensures SplitMulti(Join(xs, ", ")) == xs
  {
    SplitMultiJoinAfter("", xs);
    assert "" + Join(xs, ", ") == Join(xs, ", ");
  }

  /** `trimmed_or_none` is `None` exactly for blank input, and the trimmed text otherwise. */
  lemma TrimmedOrNoneSpec(input: string)
    ensures TrimmedOrNone(input).None? <==> AllWhitespace(input)
    ensures TrimmedOrNone(input).Some? ==> TrimmedOrNone(input).value == Trim(input) && IsTrimmed(TrimmedOrNone(input).value)
  {
    TrimEmptyIffBlank(input);
    TrimIsTrimmed(input);
  }

  /**
   * `apply_draft_to_field` never changes the kind or the value; options
   * are copied only for Select and Radio, units and unit only for Number.
   */
  lemma AppliedDraftSpec(d: Draft, f: ExtraField)
    ensures var g := AppliedDraft(d, f);
      g.kind == f.kind && g.value == f.value && g.valueMulti == f.valueMulti && g.position == f.position
      && g.readonly == f.readonly && g.blankValueOnDuplicate == f.blankValueOnDuplicate
      && g.required == d.required && g.allowMultiValues == d.allowMultiValues && g.groupId == d.groupId
      && (AllWhitespace(d.draftLabel) ==> g.fieldLabel == f.fieldLabel)
      && (!AllWhitespace(d.draftLabel) ==> g.fieldLabel == Trim(d.draftLabel))
      && (g.description.None? <==> AllWhitespace(d.description))
      && (f.kind.Select? || f.kind.Radio? ==> g.options == d.options)
      && (!(f.kind.Select? || f.kind.Radio?) ==> g.options == f.options)
      && (f.kind.Number? ==> g.units == d.units && (g.unit.None? <==> AllWhitespace(d.unit)))
      && (!f.kind.Number? ==> g.units == f.units && g.unit == f.unit)
  {
    TrimEmptyIffBlank(d.draftLabel);
    TrimmedOrNoneSpec(d.description);
    TrimmedOrNoneSpec(d.unit);
  }

  lemma ReassignedAt(fields: seq<ExtraField>, from: I32, to: I32, i: nat)
    requires i < |fields|
    ensures Reassigned(fields, from, to)[i]
      == if fields[i].groupId == Some(from) then fields[i].(groupId := Some(to)) else fields[i]
  {
    MapSeqAt(Reassign(from, to), fields, i);
  }

  /** Moving the fields of a group to that same group changes nothing. */
  lemma ReassignedSame(fields: seq<ExtraField>, id: I32)
    ensures Reassigned(fields, id, id) == fields
  {
    forall i | 0 <= i < |fields| ensures Reassigned(fields, id, id)[i] == fields[i] {
      ReassignedAt(fields, id, id, i);
    }
  }

  // ---------------------------------------------------------------------------
  // The name-conflict check

  /** A field whose label is `"Ä"`: a capital letter outside ASCII. */
  const UmlautField: ExtraField := NewField("\U{00C4}", Text, None, 0)

  /**
   * As written, the check misses an identical label with a non-ASCII
   * capital: `"Ä"` is lowercased to `"ä"`, which `eq_ignore_ascii_case`
   * does not match with `"Ä"`.
   */
  lemma NameConflictAsWrittenMissesIdentical()
    ensures !NameConflictAsWritten([UmlautField], "\U{00C4}", None)
  {
    var a := "\U{00C4}";
    TrimOfTrimmed(a);
    assert UnicodeLower(a) == "\U{00E4}";
    assert AsciiLower(a) == a && AsciiLower("\U{00E4}") == "\U{00E4}";
  }

  /** A blank label never conflicts. */
  lemma NameConflictBlank(fields: seq<ExtraField>, fieldLabel: string, editing: Option<nat>)
    requires AllWhitespace(fieldLabel)
    ensures !NameConflict(fields, fieldLabel, editing)
  {
    TrimEmptyIffBlank(fieldLabel);
  }

  /** A non-blank label conflicts with any other field carrying the same trimmed label. */
  lemma NameConflictIdentical(fields: seq<ExtraField>, i: nat, fieldLabel: string, editing: Option<nat>)
    requires i < |fields| && Some(i) != editing && !AllWhitespace(fieldLabel)
    requires Trim(fields[i].fieldLabel) == Trim(fieldLabel)
    ensures NameConflict(fields, fieldLabel, editing)
  {
    TrimEmptyIffBlank(fieldLabel);
  }

  /** The field being edited is never in conflict with itself. */
  lemma NameConflictExcludesEdited(fields: seq<ExtraField>, i: nat, fieldLabel: string)
    requires i < |fields|
    requires forall j :: 0 <= j < |fields| && j != i ==> UnicodeLower(Trim(fields[j].fieldLabel)) != UnicodeLower(Trim(fieldLabel))
    ensures !NameConflict(fields, fieldLabel, Some(i))
  {
  }

  predicate IsAscii(s: string)
  {
    forall k :: 0 <= k < |s| ==> s[k] < '\U{0080}'
  }

  lemma AsciiLowerings(s: string)
    requires IsAscii(s)
    ensures UnicodeLower(s) == AsciiLower(s)
  {
  }

  /** On ASCII labels the check as written and the intended one agree. */
  lemma NameConflictAsciiAgrees(fields: seq<ExtraField>, fieldLabel: string, editing: Option<nat>)
    requires IsAscii(Trim(fieldLabel))
    requires forall i :: 0 <= i < |fields| ==> IsAscii(Trim(fields[i].fieldLabel))
    ensures NameConflictAsWritten(fields, fieldLabel, editing) <==> NameConflict(fields, fieldLabel, editing)
  {
    var t := Trim(fieldLabel);
    AsciiLowerings(t);
    AsciiLowerIdempotent(t);
    forall i | 0 <= i < |fields|
      ensures EqIgnoreAsciiCase(Trim(fields[i].fieldLabel), UnicodeLower(t))
        <==> UnicodeLower(Trim(fields[i].fieldLabel)) == UnicodeLower(t)
    {
      AsciiLowerings(Trim(fields[i].fieldLabel));
    }
  }

  /**
   * Every conflict the check as written reports, the intended check reports
   * too: the two differ only on labels the written check lets through.
   */
  lemma NameConflictAsWrittenImpliesIntended(fields: seq<ExtraField>, fieldLabel: string, editing: Option<nat>)
    requires NameConflictAsWritten(fields, fieldLabel, editing)
    ensures NameConflict(fields, fieldLabel, editing)
  {
  }

  // ---------------------------------------------------------------------------
  // Properties of the reducer

  /** A conflicting label changes nothing, keeps the dialog open with its draft, and reports an error. */
  lemma CommitConflictKeepsEverything(s: State)
    requires s.modalDraft.Some? && NameConflict(s.fields, s.modalDraft.value.draftLabel, s.editingField)
    ensures Step(s, CommitFieldModal) == (s, [], Some(Event(NotUnique, true)))
  {
  }

  /** Creating a field with a blank label adds nothing; the dialog closes. */
  lemma CommitCreateBlankAddsNothing(s: State)
    requires s.modalDraft.Some? && s.editingField.None? && AllWhitespace(s.modalDraft.value.draftLabel)
    ensures var (s', cmds, ev) := Step(s, CommitFieldModal);
      s'.fields == s.fields && s'.groups == s.groups && !s'.modalOpen && s'.modalDraft.None? && ev.None?
  {
    TrimEmptyIffBlank(s.modalDraft.value.draftLabel);
    NameConflictBlank(s.fields, s.modalDraft.value.draftLabel, None);
  }

  /**
   * Creating a field with a free, non-blank label appends one field with
   * the trimmed label, the old length as position, the draft's kind, and the
   * draft's group or else the lowest-position group.
   */
  lemma CommitCreateAppends(s: State)
    requires s.modalDraft.Some? && s.editingField.None? && !AllWhitespace(s.modalDraft.value.draftLabel)
    requires !NameConflict(s.fields, s.modalDraft.value.draftLabel, None)
    ensures var (s', cmds, ev) := Step(s, CommitFieldModal);
      var d := s.modalDraft.value;
      |s'.fields| == |s.fields| + 1 && s'.fields[..|s.fields|] == s.fields
      && s'.fields[|s.fields|].fieldLabel == Trim(d.draftLabel) && s'.fields[|s.fields|].kind == d.kind
      && (|s.fields| <= I32_MAX ==> s'.fields[|s.fields|].position == Some(|s.fields|))
      && s'.fields[|s.fields|].groupId == (if d.groupId.Some? then d.groupId else Some(LowestPosition(s.groups).1))
      && s'.groups == LowestPosition(s.groups).0
      && !s'.modalOpen && s'.modalDraft.None? && s'.editingField.None? && ev.None?
  {
    var d := s.modalDraft.value;
    TrimEmptyIffBlank(d.draftLabel);
    TrimIdempotent(d.draftLabel);
    var s' := Step(s, CommitFieldModal).0;
    assert s'.fields[..|s.fields|] == s.fields;
  }

  /** Editing an existing field applies the draft to that field only. */
  lemma CommitEditAppliesDraft(s: State)
    requires s.modalDraft.Some? && s.editingField.Some? && s.editingField.value < |s.fields|
    requires !NameConflict(s.fields, s.modalDraft.value.draftLabel, s.editingField)
    ensures var (s', cmds, ev) := Step(s, CommitFieldModal);
      var i := s.editingField.value;
      s'.fields == s.fields[i := AppliedDraft(s.modalDraft.value, s.fields[i])]
      && s'.groups == s.groups && !s'.modalOpen && s'.editingField.None? && ev.None?
  {
  }

  /**
   * Changing the kind takes effect only while creating a field, and then
   * clears options, units, unit and the multi-value flag.
   */
  lemma DraftKindChangedSpec(s: State, kind: Kind)
    ensures var s' := Step(s, DraftKindChanged(kind)).0;
      (s.editingField.Some? || s.modalDraft.None? ==> s' == s)
      && (s.editingField.None? && s.modalDraft.Some? ==>
        s' == s.(modalDraft := Some(s.modalDraft.value.(kind := kind, options := [], units := [], unit := "",
          allowMultiValues := false))))
  {
  }

  /**
   * Removing a group, with more than one present, drops it and moves its
   * fields to the Default group's id; every other field keeps its group.
   */
  lemma RemoveGroupOfMany(s: State, idx: nat)
    requires idx < |s.groups| && |s.groups| > 1
    ensures var s' := RemovedGroup(s, idx);
      var rest := s.groups[..idx] + s.groups[idx + 1..];
      var defaultId := EnsuredDefault(rest).1;
      s'.groups == EnsuredDefault(rest).0
      && |s'.fields| == |s.fields|
      && forall k :: 0 <= k < |s.fields| ==>
        s'.fields[k] == (if s.fields[k].groupId == Some(s.groups[idx].id)
          then s.fields[k].(groupId := Some(defaultId)) else s.fields[k])
  {
    var rest := s.groups[..idx] + s.groups[idx + 1..];
    forall k | 0 <= k < |s.fields| {
      ReassignedAt(s.fields, s.groups[idx].id, EnsuredDefault(rest).1, k);
    }
  }

  /** Removing the only group renames it `"Default"`, keeps its id and leaves the fields as they were. */
  lemma RemoveOnlyGroup(s: State)
    requires |s.groups| == 1
    ensures var s' := RemovedGroup(s, 0);
      s'.groups == [ExtraFieldGroup(s.groups[0].id, DefaultName, s.groups[0].position)] && s'.fields == s.fields
  {
    ReassignedSame(s.fields, s.groups[0].id);
  }

  /** An index out of range changes nothing. */
  lemma RemoveGroupOutOfRange(s: State, idx: nat)
    requires idx >= |s.groups|
    ensures Step(s, RemoveGroup(idx)) == (s, [], None)
  {
  }

  /** A loaded import replaces fields and groups, the fields sorted by `cmp_key`. */
  lemma ImportLoadedSorts(s: State, fields: seq<ExtraField>, groups: seq<ExtraFieldGroup>, source: string)
    ensures var s' := Step(s, ImportLoaded(fields, groups, source)).0;
      Sorted(s'.fields) && multiset(s'.fields) == multiset(fields) && s'.groups == groups
      && s'.editingGroup.None? && s'.editingGroupBuffer == ""
  {
    SortFieldsSorted(fields);
  }

  // ---------------------------------------------------------------------------
  // Unique group ids

  /** The ids are unique and there is room for one more above the largest. */
  predicate FreshIdsAvailable(gs: seq<ExtraFieldGroup>)
  {
    UniqueIds(gs) && (gs == [] || MaxId(gs) < I32_MAX)
  }

  /** Dropping one group keeps the ids unique and the largest id below `i32::MAX`. */
  lemma RemovedKeepsIdsFresh(gs: seq<ExtraFieldGroup>, idx: nat)
    requires idx < |gs| && FreshIdsAvailable(gs)
    ensures FreshIdsAvailable(gs[..idx] + gs[idx + 1..])
  {
    var rest := gs[..idx] + gs[idx + 1..];
    forall i | 0 <= i < |rest| ensures rest[i] == gs[if i < idx then i else i + 1] { }
    if rest != [] {
      var k :| 0 <= k < |rest| && rest[k].id == MaxId(rest);
      assert rest[k].id <= MaxId(gs);
    }
  }

  /** `ensure_default_group` adds at most one group, with an id above every other. */
  lemma EnsuredDefaultKeepsIdsUnique(gs: seq<ExtraFieldGroup>)
    requires FreshIdsAvailable(gs)
    ensures UniqueIds(EnsuredDefault(gs).0)
  {
    NextIdFresh(gs);
  }

  /** `lowest_position_group_id` keeps ids unique. */
  lemma LowestPositionKeepsIdsUnique(gs: seq<ExtraFieldGroup>)
    requires FreshIdsAvailable(gs)
    ensures UniqueIds(LowestPosition(gs).0)
  {
    if gs == [] { EnsuredDefaultKeepsIdsUnique(gs); }
  }

  /** The group messages keep ids unique. */
  lemma GroupStepKeepsIdsUnique(s: State, msg: Msg)
    requires FreshIdsAvailable(s.groups) && IsGroupMsg(msg)
    ensures UniqueIds(GroupStep(s, msg).groups)
  {
    if msg.AddGroup? {
      AddGroupKeepsIdsUnique(s.groups);
    } else if msg.CommitGroupName? {
      CommittedGroupNameKeepsIds(s);
    } else if msg.RemoveGroup? {
      RemovedGroupKeepsIdsUnique(s, msg.index);
    }
  }

  /** Renaming a group keeps every id in its place. */
  lemma CommittedGroupNameKeepsIds(s: State)
    requires UniqueIds(s.groups)
    ensures UniqueIds(CommittedGroupName(s).groups)
  {
    var gs := CommittedGroupName(s).groups;
    assert |gs| == |s.groups| && forall i :: 0 <= i < |gs| ==> gs[i].id == s.groups[i].id;
  }

  /** Removing a group keeps ids unique: the only group is renamed, or a Default group is ensured among the rest. */
  lemma RemovedGroupKeepsIdsUnique(s: State, idx: nat)
    requires FreshIdsAvailable(s.groups)
    ensures UniqueIds(RemovedGroup(s, idx).groups)
  {
    if idx < |s.groups| {
      if |s.groups| == 1 {
        assert |RemovedGroup(s, idx).groups| == 1;
      } else {
        RemovedKeepsIdsFresh(s.groups, idx);
        EnsuredDefaultKeepsIdsUnique(s.groups[..idx] + s.groups[idx + 1..]);
      }
    }
  }

  /** The dialog messages keep ids unique: at most a Default group is created. */
  lemma DialogStepKeepsIdsUnique(s: State, msg: Msg)
    requires FreshIdsAvailable(s.groups) && IsDialogMsg(msg)
    ensures UniqueIds(DialogStep(s, msg).0.groups)
  {
    LowestPositionKeepsIdsUnique(s.groups);
    if msg.CommitFieldModal? && s.modalDraft.Some? {
      var gs := SavedDraft(s, s.modalDraft.value).1;
      assert gs == s.groups || gs == LowestPosition(s.groups).0;
    }
  }

  /**
   * Every message but `ImportLoaded` keeps the group ids unique, as long as
   * the largest id leaves room for a new one: groups are only renamed,
   * removed, or appended with a fresh id.  `ImportLoaded` installs the
   * file's groups as they are.
   */
  lemma StepKeepsIdsUnique(s: State, msg: Msg)
    requires FreshIdsAvailable(s.groups) && !msg.ImportLoaded?
    ensures UniqueIds(Step(s, msg).0.groups)
  {
    if IsFieldEdit(msg) || IsDraftEdit(msg) {
    } else if IsGroupMsg(msg) {
      GroupStepKeepsIdsUnique(s, msg);
    } else if IsDialogMsg(msg) {
      DialogStepKeepsIdsUnique(s, msg);
    }
  }

  // ---------------------------------------------------------------------------
  // The model object

  /** `apply_draft_to_field`: updates the field one property at a time. */
  method ApplyDraftToField(d: Draft, field: ExtraField) returns (f: ExtraField)
    ensures f == AppliedDraft(d, field)
  {
    f := field;
    var newLabel := Trim(d.draftLabel);
    if newLabel != [] {
      f := f.(fieldLabel := newLabel);
    }
    f := f.(description := TrimmedOrNone(d.description));
    f := f.(required := d.required);
    f := f.(allowMultiValues := d.allowMultiValues);
    f := f.(groupId := d.groupId);
    if f.kind.Select? || f.kind.Radio? {
      f := f.(options := d.options);
    }
    if f.kind.Number? {
      f := f.(units := d.units);
      f := f.(unit := TrimmedOrNone(d.unit));
    }
  }

  /** `ExtraFieldsModel`. */
  class ExtraFieldsModel {
    var fields: seq<ExtraField>
    var groups: seq<ExtraFieldGroup>
    var editingGroup: Option<nat>
    var editingGroupBuffer: string
    var editingField: Option<nat>
    var modalOpen: bool
    var modalDraft: Option<Draft>

    function Snapshot(): State
      reads this
    {
      State(fields, groups, editingGroup, editingGroupBuffer, editingField, modalOpen, modalDraft)
    }

    /** `ExtraFieldsModel::default()`. */
    constructor ()
      ensures Snapshot() == Initial
    {
      fields, groups, editingGroup, editingGroupBuffer := [], [], None, "";
      editingField, modalOpen, modalDraft := None, false, None;
    }

    /** `fields()`. */
    method Fields() returns (r: seq<ExtraField>)
      ensures r == fields
    {
      return fields;
    }

    /** `groups()`. */
    method Groups() returns (r: seq<ExtraFieldGroup>)
      ensures r == groups
    {
      return groups;
    }

    /** `ensure_default_group`. */
    method EnsureDefaultGroup() returns (id: I32)
      modifies this
      ensures (Snapshot(), id) == (old(Snapshot()).(groups := EnsuredDefault(old(groups)).0), EnsuredDefault(old(groups)).1)
    {
      var found := FindNamed(groups, DefaultName);
      if found.Some? {
        return groups[found.value].id;
      }
      id := NextId(groups);
      groups := groups + [ExtraFieldGroup(id, DefaultName, WrapI32(|groups|))];
    }

    /** `lowest_position_group_id`. */
    method LowestPositionGroupId() returns (id: I32)
      modifies this
      ensures (Snapshot(), id) == (old(Snapshot()).(groups := LowestPosition(old(groups)).0), LowestPosition(old(groups)).1)
    {
      if groups == [] {
        id := EnsureDefaultGroup();
        return;
      }
      id := groups[MinGroup(groups)].id;
    }

    /** The loop of `RemoveGroup`: every field of group `from` is moved to group `to`. */
    method ReassignFields(from: I32, to: I32)
      modifies this
      ensures Snapshot() == old(Snapshot()).(fields := Reassigned(old(fields), from, to))
    {
      var input := fields;
      var out: seq<ExtraField> := [];
      for i := 0 to |input|
        invariant out == MapSeq(Reassign(from, to), input[..i])
        invariant unchanged(this)
      {
        MapSeqSnoc(Reassign(from, to), input, i);
        var f := input[i];
        if f.groupId == Some(from) {
          f := f.(groupId := Some(to));
        }
        assert f == Reassign(from, to)(input[i]);
        out := out + [f];
      }
      assert input[..|input|] == input;
      assert out == Reassigned(input, from, to);
      fields := out;
    }

    /** `RemoveGroup`. */
    method RemoveGroup(idx: nat)
      modifies this
      ensures Snapshot() == RemovedGroup(old(Snapshot()), idx)
    {
      if idx >= |groups| {
        return;
      }
      var group := groups[idx];
      if |groups| == 1 {
        groups := groups[idx := group.(name := DefaultName)];
        ReassignFields(group.id, group.id);
      } else {
        groups := groups[..idx] + groups[idx + 1..];
        var defaultId := EnsureDefaultGroup();
        ReassignFields(group.id, defaultId);
      }
    }

    /** `CommitFieldModal`. */
    method CommitFieldModal() returns (ev: Option<Event>)
      modifies this
      ensures (Snapshot(), ev) == CommittedFieldModal(old(Snapshot()))
    {
      ev := None;
      if modalDraft.Some? {
        var d := modalDraft.value;
        modalDraft := None;
        if NameConflict(fields, d.draftLabel, editingField) {
          modalDraft := Some(d);
          return Some(Event(NotUnique, true));
        }
        if editingField.Some? {
          var idx := editingField.value;
          if idx < |fields| {
            var f := ApplyDraftToField(d, fields[idx]);
            fields := fields[idx := f];
          }
        } else {
          var newLabel := Trim(d.draftLabel);
          if newLabel != [] {
            var preferred := LowestPositionGroupId();
            d := d.(groupId := if d.groupId.Some? then d.groupId else Some(preferred));
            var f := NewField(newLabel, d.kind, d.groupId, WrapI32(|fields|));
            f := ApplyDraftToField(d, f);
            fields := fields + [f];
          }
        }
      }
      modalOpen := false;
      editingField := None;
    }

    /** `StartEditGroup`. */
    method StartEditGroup(idx: nat)
      modifies this
      ensures Snapshot() == StartedGroupEdit(old(Snapshot()), idx)
    {
      if idx < |groups| {
        editingGroup := Some(idx);
        editingGroupBuffer := groups[idx].name;
      }
    }

    /** `CommitGroupName`. */
    method CommitGroupName()
      modifies this
      ensures Snapshot() == CommittedGroupName(old(Snapshot()))
    {
      if editingGroup.Some? && editingGroup.value < |groups| {
        var idx := editingGroup.value;
        groups := groups[idx := groups[idx].(name := Trim(editingGroupBuffer))];
      }
      editingGroup, editingGroupBuffer := None, "";
    }

    /** `OpenFieldModal`. */
    method OpenFieldModal(idx: nat)
      modifies this
      ensures Snapshot() == OpenedFieldModal(old(Snapshot()), idx)
    {
      if idx < |fields| {
        modalOpen := true;
        editingField := Some(idx);
        modalDraft := Some(DraftOf(fields[idx]));
      }
    }

    /** `StartAddField`. */
    method StartAddField(groupId: Option<I32>)
      modifies this
      ensures Snapshot() == StartedAddField(old(Snapshot()), groupId)
    {
      modalOpen := true;
      editingField := None;
      var preferred := LowestPositionGroupId();
      modalDraft := Some(DefaultDraft.(groupId := if groupId.Some? then groupId else Some(preferred)));
    }

    /** `RemoveField`. */
    method RemoveField(idx: nat)
      modifies this
      ensures Snapshot() == RemovedField(old(Snapshot()), idx)
    {
      if idx < |fields| {
        fields := fields[..idx] + fields[idx + 1..];
      }
    }

    /** `ImportLoaded`. */
    method LoadImport(loaded: seq<ExtraField>, loadedGroups: seq<ExtraFieldGroup>, source: string) returns (ev: Option<Event>)
      modifies this
      ensures (Snapshot(), ev) == LoadedImport(old(Snapshot()), loaded, loadedGroups, source)
    {
      fields := SortFields(loaded);
      groups := loadedGroups;
      editingGroup, editingGroupBuffer := None, "";
      ev := Some(Event("Imported " + NatToString(|fields|) + " field(s) from " + source, false));
    }

    /** The group messages of `update`. */
    method UpdateGroups(msg: Msg)
      modifies this
      ensures Snapshot() == GroupStep(old(Snapshot()), msg)
    {
      if msg.StartEditGroup? {
        StartEditGroup(msg.index);
      } else if msg.AddGroup? {
        var id := NextId(groups);
        groups := groups + [ExtraFieldGroup(id, "Group " + IntToString(id), WrapI32(|groups|))];
      } else if msg.EditGroupName? {
        editingGroupBuffer := msg.text;
      } else if msg.CommitGroupName? {
        CommitGroupName();
      } else if msg.CancelGroupEdit? {
        editingGroup, editingGroupBuffer := None, "";
      } else if msg.RemoveGroup? {
        RemoveGroup(msg.index);
      }
    }

    /** The dialog messages of `update`. */
    method UpdateDialog(msg: Msg) returns (ev: Option<Event>)
      modifies this
      ensures (Snapshot(), ev) == DialogStep(old(Snapshot()), msg)
    {
      ev := None;
      if msg.OpenFieldModal? {
        OpenFieldModal(msg.index);
      } else if msg.CloseFieldModal? {
        modalOpen, modalDraft, editingField := false, None, None;
      } else if msg.StartAddField? {
        StartAddField(msg.groupId);
      } else if msg.RemoveField? {
        RemoveField(msg.index);
      } else if msg.CommitFieldModal? {
        ev := CommitFieldModal();
      }
    }

    /** The messages of `update` that edit one field in place. */
    method EditField(msg: Msg)
      requires IsFieldEdit(msg)
      modifies this
      ensures Snapshot() == FieldEditStep(old(Snapshot()), msg)
    {
      if msg.index < |fields| {
        fields := fields[msg.index := EditedField(fields[msg.index], msg)];
      }
    }

    /** The messages of `update` that edit the dialog's draft. */
    method EditDraft(msg: Msg)
      modifies this
      ensures Snapshot() == DraftEditStep(old(Snapshot()), msg)
    {
      if modalDraft.Some? {
        modalDraft := Some(EditedDraft(modalDraft.value, msg, editingField.None?));
      }
    }

    /** The import messages of `update`. */
    method UpdateImport(msg: Msg) returns (cmds: seq<Command>, ev: Option<Event>)
      modifies this
      ensures (Snapshot(), cmds, ev) == ImportStep(old(Snapshot()), msg)
    {
      cmds, ev := [], None;
      if msg.ImportRequested? {
        cmds := [PickMetadataFile];
      } else if msg.ImportCancelled? {
        ev := Some(Event(ImportCancelledMessage, false));
      } else if msg.ImportFailed? {
        ev := Some(Event(msg.text, true));
      } else if msg.ImportLoaded? {
        ev := LoadImport(msg.fields, msg.groups, msg.source);
      }
    }

    /** `update`: applies one message to the fields and returns the commands it pushes. */
    method Update(msg: Msg) returns (cmds: seq<Command>, ev: Option<Event>)
      modifies this
      ensures (Snapshot(), cmds, ev) == Step(old(Snapshot()), msg)
    {
      cmds, ev := [], None;
      if IsFieldEdit(msg) {
        EditField(msg);
      } else if IsDraftEdit(msg) {
        EditDraft(msg);
      } else if IsGroupMsg(msg) {
        UpdateGroups(msg);
      } else if IsDialogMsg(msg) {
        ev := UpdateDialog(msg);
      } else {
        cmds, ev := UpdateImport(msg);
      }
    }
  }
}
