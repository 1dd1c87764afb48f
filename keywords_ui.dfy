/**
 * The keywords editor: the keyword list, the "add" dialog that takes
 * comma-separated input, and in-place editing of one keyword.  `Step` is the
 * reducer as a value; the class `KeywordsModel` performs it on its fields.
 */
module KeywordsUi {
  import opened Wrappers
  import opened Text

  /** `KeywordsMsg`. */
  datatype Msg =
    | OpenModal
    | CloseModal
    | ModalInputChanged(text: string)
    | AddFromModal
    | StartEdit(index: nat)
    | EditInputChanged(text: string)
    | CommitEdit
    | CancelEdit
    | Remove(index: nat)

  /** `KeywordsEvent`: feedback for the status bar or the error dialog. */
  datatype Event = Event(message: string, isError: bool)

  /** The fields of `KeywordsModel`. */
  datatype State = State(
    keywords: seq<string>,
    modalOpen: bool,
    modalInput: string,
    editingIndex: Option<nat>,
    editingBuffer: string)

  /** `KeywordsModel::default()`. */
  const Initial: State := State([], false, "", None, "")

  const EmptyKeyword: string := "Keyword cannot be empty."
  const DuplicateKeyword: string := "Keyword already exists."
  const KeywordRemoved: string := "Keyword removed"

  /** `keywords.iter().any(|k| k.eq_ignore_ascii_case(t))`. */
  predicate HasMatch(kws: seq<string>, t: string)
  {
    exists i :: 0 <= i < |kws| && EqIgnoreAsciiCase(kws[i], t)
  }

  /**
   * What the editor keeps true of its list: every keyword is trimmed and
   * non-empty, and no two are equal ignoring ASCII case.
   */
  predicate ValidKeywords(kws: seq<string>)
  {
    (forall i :: 0 <= i < |kws| ==> kws[i] != [] && Trim(kws[i]) == kws[i])
    && (forall i, j :: 0 <= i < j < |kws| ==> !EqIgnoreAsciiCase(kws[i], kws[j]))
  }

  // ---------------------------------------------------------------------------
  // The "add" dialog

  /** The list and the counters of `process_modal_input`. */
  datatype Tally = Tally(keywords: seq<string>, added: nat, duplicates: nat, empties: nat)

  /**
   * One comma-separated part: a blank part is counted as empty, a part that
   * matches a keyword ignoring ASCII case as a duplicate, and anything else
   * is appended trimmed.
   */
  function AddPart(t: Tally, part: string): (r: Tally)
  {
    var trimmed := Trim(part);
    if trimmed == [] then t.(empties := t.empties + 1)
    else if HasMatch(t.keywords, trimmed) then t.(duplicates := t.duplicates + 1)
    else t.(keywords := t.keywords + [trimmed], added := t.added + 1)
  }

  /** The parts handled in order. */
  function AddParts(t: Tally, parts: seq<string>): (r: Tally)
  {
    if parts == [] then t else AddPart(AddParts(t, parts[..|parts| - 1]), parts[|parts| - 1])
  }

  /** The "skipped" clauses of the status message. */
  function SkippedClauses(t: Tally): (r: seq<string>)
    ensures r == [] <==> t.duplicates == 0 && t.empties == 0
  {
    (if t.duplicates > 0 then [NatToString(t.duplicates) + " duplicate(s)"] else [])
    + (if t.empties > 0 then [NatToString(t.empties) + " empty entry/entries"] else [])
  }

  const NothingAdded: string := "No keywords added; skipped duplicates or empty entries."

  /** The status message of `process_modal_input`. */
  function ModalMessage(t: Tally): (m: string)
    ensures t.added == 0 ==> m == NothingAdded
    ensures t.added > 0 ==> StartsWith(m, "Added " + NatToString(t.added) + " keyword(s)")
  {
    var skipped := SkippedClauses(t);
    if t.added > 0 && skipped != [] then
      "Added " + NatToString(t.added) + " keyword(s); skipped " + Join(skipped, " and ") + "."
    else if t.added > 0 then "Added " + NatToString(t.added) + " keyword(s)."
    else NothingAdded
  }

  /** `process_modal_input` as a value: the new state, the message, and whether anything was added. */
  function ProcessedInput(s: State): (r: (State, string, bool))
  {
    var t := AddParts(Tally(s.keywords, 0, 0, 0), Split(s.modalInput, ','));
    (s.(keywords := t.keywords), ModalMessage(t), t.added > 0)
  }

  // ---------------------------------------------------------------------------
  // Inline editing

  /** Some keyword other than the one at `index` equals `t` ignoring ASCII case. */
  predicate OtherMatch(kws: seq<string>, index: nat, t: string)
  {
    exists i :: 0 <= i < |kws| && i != index && EqIgnoreAsciiCase(kws[i], t)
  }

  /**
   * `commit_edit` as a value: nothing happens without an edited index; a
   * blank buffer or one that matches another keyword is refused with an
   * error and no change; otherwise the trimmed buffer replaces the keyword
   * (when the index is in range) and editing ends.
   */
  function CommittedEdit(s: State): (r: (State, Option<Event>))
  {
    match s.editingIndex
    case None => (s, None)
    case Some(index) =>
      var newKw := Trim(s.editingBuffer);
      if newKw == [] then (s, Some(Event(EmptyKeyword, true)))
      else if OtherMatch(s.keywords, index, newKw) then (s, Some(Event(DuplicateKeyword, true)))
      else
        var kws := if index < |s.keywords| then s.keywords[index := newKw] else s.keywords;
        (s.(keywords := kws, editingIndex := None, editingBuffer := ""), None)
  }

  // ---------------------------------------------------------------------------
  // The reducer

  /** `update` as a value: the new state and the feedback event. */
  function Step(s: State, msg: Msg): (r: (State, Option<Event>))
  {
    match msg
    case OpenModal => (s.(modalOpen := true, modalInput := ""), None)
    case CloseModal => (s.(modalOpen := false, modalInput := ""), None)
    case ModalInputChanged(text) => (s.(modalInput := text), None)
    case AddFromModal =>
      var (s', message, addedAny) := ProcessedInput(s);
      var s'' := if addedAny then s'.(modalOpen := false, modalInput := "") else s';
      (s'', Some(Event(message, false)))
    case StartEdit(index) =>
      (s.(editingIndex := Some(index), editingBuffer := if index < |s.keywords| then s.keywords[index] else ""), None)
    case EditInputChanged(text) => (s.(editingBuffer := text), None)
    case CommitEdit => CommittedEdit(s)
    case CancelEdit => (s.(editingIndex := None, editingBuffer := ""), None)
    case Remove(index) =>
      if index < |s.keywords| then
        var kws := s.keywords[..index] + s.keywords[index + 1..];
        var s' := if s.editingIndex == Some(index) then s.(keywords := kws, editingIndex := None, editingBuffer := "")
          else s.(keywords := kws);
        (s', Some(Event(KeywordRemoved, false)))
      else (s, None)
  }

  /** The state after a sequence of messages. */
  function Run(s: State, msgs: seq<Msg>): State
  {
    if msgs == [] then s else Step(Run(s, msgs[..|msgs| - 1]), msgs[|msgs| - 1]).0
  }

  // ---------------------------------------------------------------------------
  // Properties of the "add" dialog

  /**
   * Every part is counted once, the old keywords stay in front, and exactly
   * the added parts are appended.
   */
  lemma {:induction false} AddPartsCounts(kws: seq<string>, parts: seq<string>)
    ensures var r := AddParts(Tally(kws, 0, 0, 0), parts);
      r.added + r.duplicates + r.empties == |parts|
      && |r.keywords| == |kws| + r.added && r.keywords[..|kws|] == kws
  {
    if parts != [] {
      AddPartsCounts(kws, parts[..|parts| - 1]);
      var t := AddParts(Tally(kws, 0, 0, 0), parts[..|parts| - 1]);
      assert (t.keywords + [Trim(parts[|parts| - 1])])[..|kws|] == t.keywords[..|kws|];
    }
  }

  /** Adding from the dialog keeps the list valid. */
  lemma {:induction false} AddPartsValid(t: Tally, parts: seq<string>)
    requires ValidKeywords(t.keywords)
    ensures ValidKeywords(AddParts(t, parts).keywords)
  {
    if parts != [] {
      var u := AddParts(t, parts[..|parts| - 1]);
      AddPartsValid(t, parts[..|parts| - 1]);
      var trimmed := Trim(parts[|parts| - 1]);
      if trimmed != [] && !HasMatch(u.keywords, trimmed) {
        TrimIdempotent(parts[|parts| - 1]);
        var kws := u.keywords + [trimmed];
        forall i, j | 0 <= i < j < |kws| ensures !EqIgnoreAsciiCase(kws[i], kws[j]) {
          if j == |u.keywords| {
            assert kws[i] == u.keywords[i];
          } else {
            assert kws[i] == u.keywords[i] && kws[j] == u.keywords[j];
          }
        }
      }
    }
  }

  lemma HasMatchAppend(kws: seq<string>, x: string, t: string)
    requires HasMatch(kws, t)
    ensures HasMatch(kws + [x], t)
  {
    var i :| 0 <= i < |kws| && EqIgnoreAsciiCase(kws[i], t);
    assert (kws + [x])[i] == kws[i];
  }

  /** Every non-blank part ends up in the list, ignoring ASCII case. */
  lemma {:induction false} AddPartsCovers(t: Tally, parts: seq<string>, j: nat)
    requires j < |parts| && Trim(parts[j]) != []
    ensures HasMatch(AddParts(t, parts).keywords, Trim(parts[j]))
  {
    var front, last := parts[..|parts| - 1], parts[|parts| - 1];
    var u := AddParts(t, front);
    var trimmed := Trim(last);
    if j < |front| {
      assert front[j] == parts[j];
      AddPartsCovers(t, front, j);
      if trimmed != [] && !HasMatch(u.keywords, trimmed) {
        HasMatchAppend(u.keywords, trimmed, Trim(parts[j]));
      }
    } else if !HasMatch(u.keywords, trimmed) {
      var kws := u.keywords + [trimmed];
      assert kws[|u.keywords|] == trimmed;
    }
  }

  /** Every appended keyword is one of the parts, trimmed. */
  lemma {:induction false} AddPartsAppendsParts(t: Tally, parts: seq<string>, k: nat)
    requires |t.keywords| <= k < |AddParts(t, parts).keywords|
    ensures exists j :: 0 <= j < |parts| && AddParts(t, parts).keywords[k] == Trim(parts[j])
  {
    var front, last := parts[..|parts| - 1], parts[|parts| - 1];
    var u := AddParts(t, front);
    if k < |u.keywords| {
      AddPartsAppendsParts(t, front, k);
      var j :| 0 <= j < |front| && u.keywords[k] == Trim(front[j]);
      assert front[j] == parts[j];
      assert AddParts(t, parts).keywords[k] == u.keywords[k];
    } else {
      assert AddParts(t, parts).keywords[k] == Trim(parts[|parts| - 1]);
    }
  }

  /** A part that is blank or matches the current list is skipped; any other part is appended trimmed. */
  lemma AddPartCases(t: Tally, part: string)
    ensures AllWhitespace(part) ==> AddPart(t, part) == t.(empties := t.empties + 1)
    ensures !AllWhitespace(part) && HasMatch(t.keywords, Trim(part)) ==> AddPart(t, part) == t.(duplicates := t.duplicates + 1)
    ensures !AllWhitespace(part) && !HasMatch(t.keywords, Trim(part)) ==>
      AddPart(t, part).keywords == t.keywords + [Trim(part)] && AddPart(t, part).added == t.added + 1
  {
    TrimEmptyIffBlank(part);
  }

  /**
   * The dialog closes and its input is cleared exactly when something was
   * added; the event is never an error.
   */
  lemma AddFromModalClosesOnlyOnAdd(s: State)
    ensures var (s', ev) := Step(s, AddFromModal);
      var t := AddParts(Tally(s.keywords, 0, 0, 0), Split(s.modalInput, ','));
      ev.Some? && !ev.value.isError && ev.value.message == ModalMessage(t)
      && s'.keywords == t.keywords
      && (t.added > 0 ==> !s'.modalOpen && s'.modalInput == "")
      && (t.added == 0 ==> s' == s)
  {
    if AddParts(Tally(s.keywords, 0, 0, 0), Split(s.modalInput, ',')).added == 0 {
      AddPartsCounts(s.keywords, Split(s.modalInput, ','));
      assert AddParts(Tally(s.keywords, 0, 0, 0), Split(s.modalInput, ',')).keywords == s.keywords;
    }
  }

  // ---------------------------------------------------------------------------
  // Properties of editing and removal

  /** A blank edit is refused with `"Keyword cannot be empty."` and changes nothing. */
  lemma CommitBlankRefused(s: State)
    requires s.editingIndex.Some? && AllWhitespace(s.editingBuffer)
    ensures Step(s, CommitEdit) == (s, Some(Event(EmptyKeyword, true)))
  {
    TrimEmptyIffBlank(s.editingBuffer);
  }

  /** An edit matching another keyword is refused with `"Keyword already exists."` and changes nothing. */
  lemma CommitDuplicateRefused(s: State)
    requires s.editingIndex.Some? && !AllWhitespace(s.editingBuffer)
    requires OtherMatch(s.keywords, s.editingIndex.value, Trim(s.editingBuffer))
    ensures Step(s, CommitEdit) == (s, Some(Event(DuplicateKeyword, true)))
  {
    TrimEmptyIffBlank(s.editingBuffer);
  }

  /** Without an edited index, committing does nothing. */
  lemma CommitWithoutEditIgnored(s: State)
    requires s.editingIndex.None?
    ensures Step(s, CommitEdit) == (s, None)
  {
  }

  /** An accepted edit stores the trimmed buffer at the edited index only and ends editing. */
  lemma CommitAccepted(s: State)
    requires s.editingIndex.Some? && s.editingIndex.value < |s.keywords| && !AllWhitespace(s.editingBuffer)
    requires !OtherMatch(s.keywords, s.editingIndex.value, Trim(s.editingBuffer))
    ensures var (s', ev) := Step(s, CommitEdit);
      ev.None? && s'.keywords == s.keywords[s.editingIndex.value := Trim(s.editingBuffer)]
      && s'.editingIndex.None? && s'.editingBuffer == ""
      && s'.modalOpen == s.modalOpen && s'.modalInput == s.modalInput
  {
    TrimEmptyIffBlank(s.editingBuffer);
  }

  /**
   * Removing an index in range deletes exactly that keyword, keeps the
   * others in order, and ends editing only when that keyword was being
   * edited; an index out of range changes nothing.
   */
  lemma RemoveSpec(s: State, i: nat)
    ensures var (s', ev) := Step(s, Remove(i));
      if i < |s.keywords| then
        ev == Some(Event(KeywordRemoved, false))
        && |s'.keywords| == |s.keywords| - 1
        && (forall k :: 0 <= k < i ==> s'.keywords[k] == s.keywords[k])
        && (forall k :: i <= k < |s'.keywords| ==> s'.keywords[k] == s.keywords[k + 1])
        && (s.editingIndex == Some(i) ==> s'.editingIndex.None? && s'.editingBuffer == "")
        && (s.editingIndex != Some(i) ==> s'.editingIndex == s.editingIndex && s'.editingBuffer == s.editingBuffer)
      else s' == s && ev.None?
  {
  }

  /** Removing one keyword keeps the list valid. */
  lemma RemoveValid(kws: seq<string>, i: nat)
    requires ValidKeywords(kws) && i < |kws|
    ensures ValidKeywords(kws[..i] + kws[i + 1..])
  {
    var r := kws[..i] + kws[i + 1..];
    forall a | 0 <= a < |r| ensures r[a] == kws[if a < i then a else a + 1] { }
  }

  /** An accepted edit keeps the list valid. */
  lemma CommitValid(s: State)
    requires ValidKeywords(s.keywords)
    ensures ValidKeywords(Step(s, CommitEdit).0.keywords)
  {
    if s.editingIndex.Some? {
      var index, newKw := s.editingIndex.value, Trim(s.editingBuffer);
      if newKw != [] && !OtherMatch(s.keywords, index, newKw) && index < |s.keywords| {
        TrimIdempotent(s.editingBuffer);
        var kws := s.keywords[index := newKw];
        forall i, j | 0 <= i < j < |kws| ensures !EqIgnoreAsciiCase(kws[i], kws[j]) {
          if i != index && j != index {
            assert kws[i] == s.keywords[i] && kws[j] == s.keywords[j];
          } else if i == index {
            assert kws[j] == s.keywords[j];
          } else {
            assert kws[i] == s.keywords[i];
          }
        }
      }
    }
  }

  /** Every message keeps the list valid. */
  lemma StepValid(s: State, msg: Msg)
    requires ValidKeywords(s.keywords)
    ensures ValidKeywords(Step(s, msg).0.keywords)
  {
    match msg
    case AddFromModal => AddPartsValid(Tally(s.keywords, 0, 0, 0), Split(s.modalInput, ','));
    case CommitEdit => CommitValid(s);
    case Remove(i) => if i < |s.keywords| { RemoveValid(s.keywords, i); }
    case _ =>
  }

  /** Starting from an empty editor, the keywords are always trimmed, non-empty and unique ignoring ASCII case. */
  lemma {:induction false} ReachableValid(msgs: seq<Msg>)
    ensures ValidKeywords(Run(Initial, msgs).keywords)
  {
    if msgs != [] {
      ReachableValid(msgs[..|msgs| - 1]);
      StepValid(Run(Initial, msgs[..|msgs| - 1]), msgs[|msgs| - 1]);
    }
  }

  // ---------------------------------------------------------------------------
  // The model object

  /** The loop of `process_modal_input` over the comma-separated parts. */
  method TallyParts(keywords0: seq<string>, parts: seq<string>) returns (t: Tally)
    ensures t == AddParts(Tally(keywords0, 0, 0, 0), parts)
  {
    var keywords := keywords0;
    var addedCount, dupCount, emptyCount := 0, 0, 0;
    var i := 0;
    while i < |parts|
      invariant 0 <= i <= |parts|
      invariant Tally(keywords, addedCount, dupCount, emptyCount) == AddParts(Tally(keywords0, 0, 0, 0), parts[..i])
    {
      assert parts[..i + 1][..i] == parts[..i];
      var trimmed := Trim(parts[i]);
      if trimmed == [] {
        emptyCount := emptyCount + 1;
      } else if HasMatch(keywords, trimmed) {
        dupCount := dupCount + 1;
      } else {
        keywords := keywords + [trimmed];
        addedCount := addedCount + 1;
      }
      i := i + 1;
    }
    assert parts[..i] == parts;
    t := Tally(keywords, addedCount, dupCount, emptyCount);
  }

  /** `KeywordsModel`. */
  class KeywordsModel {
    var keywords: seq<string>
    var modalOpen: bool
    var modalInput: string
    var editingIndex: Option<nat>
    var editingBuffer: string

    function Snapshot(): State
      reads this
    {
      State(keywords, modalOpen, modalInput, editingIndex, editingBuffer)
    }

    /** `KeywordsModel::default()`. */
    constructor ()
      ensures Snapshot() == Initial
    {
      keywords, modalOpen, modalInput, editingIndex, editingBuffer := [], false, "", None, "";
    }

    /** `keywords()`: the current list. */
    method Keywords() returns (r: seq<string>)
      ensures r == keywords
    {
      return keywords;
    }

    /**
     * `process_modal_input`: walks the comma-separated parts of the dialog's
     * input, counting blanks and duplicates and appending the rest trimmed.
     */
    method ProcessModalInput() returns (message: string, addedAny: bool)
      modifies this
      ensures (Snapshot(), message, addedAny) == ProcessedInput(old(Snapshot()))
    {
      var parts := Split(modalInput, ',');
      var t := TallyParts(keywords, parts);
      keywords := t.keywords;
      message := ModalMessage(t);
      addedAny := t.added > 0;
    }

    /** `commit_edit`. */
    method CommitEdit() returns (ev: Option<Event>)
      modifies this
      ensures (Snapshot(), ev) == CommittedEdit(old(Snapshot()))
    {
      if editingIndex.None? {
        return None;
      }
      var index := editingIndex.value;
      var newKw := Trim(editingBuffer);
      if newKw == [] {
        return Some(Event(EmptyKeyword, true));
      }
      if OtherMatch(keywords, index, newKw) {
        return Some(Event(DuplicateKeyword, true));
      }
      if index < |keywords| {
        keywords := keywords[index := newKw];
      }
      editingIndex := None;
      editingBuffer := "";
      return None;
    }

    /** `update`: applies one message to the fields. */
    method Update(msg: Msg) returns (ev: Option<Event>)
      modifies this
      ensures (Snapshot(), ev) == Step(old(Snapshot()), msg)
    {
      match msg
      case OpenModal =>
        modalOpen, modalInput := true, "";
        ev := None;
      case CloseModal =>
        modalOpen, modalInput := false, "";
        ev := None;
      case ModalInputChanged(text) =>
        modalInput := text;
        ev := None;
      case AddFromModal =>
        var message, addedAny := ProcessModalInput();
        if addedAny {
          modalOpen, modalInput := false, "";
        }
        ev := Some(Event(message, false));
      case StartEdit(index) =>
        editingIndex := Some(index);
        editingBuffer := if index < |keywords| then keywords[index] else "";
        ev := None;
      case EditInputChanged(text) =>
        editingBuffer := text;
        ev := None;
      case CommitEdit =>
        ev := CommitEdit();
      case CancelEdit =>
        editingIndex, editingBuffer := None, "";
        ev := None;
      case Remove(index) =>
        ev := None;
        if index < |keywords| {
          keywords := keywords[..index] + keywords[index + 1..];
          if editingIndex == Some(index) {
            editingIndex, editingBuffer := None, "";
          }
          ev := Some(Event(KeywordRemoved, false));
        }
    }
  }
}
