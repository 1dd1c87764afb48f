/**
 * The extra fields of an entry as they go into the RO-Crate metadata of an
 * `.eln` archive: one `PropertyValue` node per field, and the eLabFTW
 * metadata document (fields and groups as eLabFTW writes them) carried as a
 * JSON string in one more `PropertyValue` node.  The metadata document is
 * what the import of extra fields reads back.
 */
module ElnExport {
  import opened Wrappers
  import opened Text
  import opened Json
  import opened DomainExtraFields

  // ---------------------------------------------------------------------------
  // JSON objects with optional members

  /** No key occurs twice. */
  predicate DistinctKeys(keys: seq<string>)
  {
    forall a, b :: 0 <= a < b < |keys| ==> keys[a] != keys[b]
  }

  /** The members `(keys[i], v)` for every slot `vals[i] == Some(v)`, in key order. */
  function Present(keys: seq<string>, vals: seq<Option<Json>>): (r: seq<(string, Json)>)
    requires |keys| == |vals|
    ensures |r| <= |keys|
  {
    if keys == [] then []
    else
      var n := |keys| - 1;
      Present(keys[..n], vals[..n]) + (if vals[n].Some? then [(keys[n], vals[n].value)] else [])
  }

  /** A key that is not among the slots names no member. */
  lemma {:induction false} PresentAbsent(keys: seq<string>, vals: seq<Option<Json>>, k: string)
    requires |keys| == |vals| && k !in keys
    ensures Occurrences(Present(keys, vals), k) == 0
  {
    if keys != [] {
      var n := |keys| - 1;
      assert keys[..n] + [keys[n]] == keys;
      PresentAbsent(keys[..n], vals[..n], k);
      SnocMembers(Present(keys, vals), Present(keys[..n], vals[..n]), keys[n], vals[n]);
    }
  }

  /** One optional member appended: how lookups and counts see it. */
  lemma SnocMembers(m: seq<(string, Json)>, front: seq<(string, Json)>, k: string, v: Option<Json>)
    requires m == front + (if v.Some? then [(k, v.value)] else [])
    ensures forall key :: Occurrences(m, key) == Occurrences(front, key) + (if v.Some? && key == k then 1 else 0)
    ensures forall key :: Lookup(m, key) == if v.Some? && key == k then v else Lookup(front, key)
  {
    if v.Some? {
      assert m[..|m| - 1] == front;
    } else {
      assert m == front;
    }
  }

  /** With distinct keys, slot `i` is what its key looks up, and its key names at most one member. */
  lemma {:induction false} PresentAt(keys: seq<string>, vals: seq<Option<Json>>, i: nat)
    requires |keys| == |vals| && DistinctKeys(keys) && i < |keys|
    ensures Lookup(Present(keys, vals), keys[i]) == vals[i]
    ensures Occurrences(Present(keys, vals), keys[i]) == (if vals[i].Some? then 1 else 0)
  {
    var n := |keys| - 1;
    var front := Present(keys[..n], vals[..n]);
    SnocMembers(Present(keys, vals), front, keys[n], vals[n]);
    assert DistinctKeys(keys[..n]);
    if i == n {
      assert keys[i] !in keys[..n];
      PresentAbsent(keys[..n], vals[..n], keys[i]);
    } else {
      PresentAt(keys[..n], vals[..n], i);
      assert keys[..n][i] == keys[i] && vals[..n][i] == vals[i];
    }
  }

  function OptStr(o: Option<string>): (r: Option<Json>)
    ensures r.Some? <==> o.Some?
  {
    match o
    case None => None
    case Some(s) => Some(Str(s))
  }

  function OptInt(o: Option<I32>): (r: Option<Json>)
    ensures r.Some? <==> o.Some?
  {
    match o
    case None => None
    case Some(i) => Some(Num(Int(i)))
  }

  /** A `true` flag is written as `true`; a `false` one is left out. */
  function Flag(b: bool): (r: Option<Json>)
    ensures r.Some? <==> b
  {
    if b then Some(Bool(true)) else None
  }

  /** A list of strings as a JSON array of strings. */
  function StrArray(xs: seq<string>): (r: seq<Json>)
    ensures |r| == |xs|
  {
    seq(|xs|, i requires 0 <= i < |xs| => Str(xs[i]))
  }

  /** Reading an array of strings back as text gives the strings. */
  lemma StringsOfStrArray(xs: seq<string>)
    ensures Strings(StrArray(xs)) == xs
  {
    var s := Strings(StrArray(xs));
    forall i | 0 <= i < |xs| ensures s[i] == xs[i] {
      StringsSpec(StrArray(xs));
    }
  }

  // ---------------------------------------------------------------------------
  // Field values

  /**
   * `value_to_json`: a multi-value field with values is an array of strings;
   * otherwise a number field keeps its text, an id field is an integer when
   * its text parses as `i64`, and anything else is its text.
   */
  function ValueToJson(f: ExtraField): (r: Json)
    ensures r.Str? || r.Num? || r.Arr?
  {
    if f.allowMultiValues && f.valueMulti != [] then Arr(StrArray(f.valueMulti))
    else if f.kind.Number? then Str(f.value)
    else if IsIdKind(f.kind) then
      (match ParseI64(f.value) case Some(i) => Num(Int(i)) case None => Str(f.value))
    else Str(f.value)
  }

  /**
   * The JSON type of a value: an array exactly for a multi-value field with
   * values; otherwise a JSON integer exactly for an id field whose text is an
   * `i64`, and the text as a string in every other case, number fields
   * included.
   */
  lemma ValueToJsonCases(f: ExtraField)
    ensures ValueToJson(f).Arr? <==> f.allowMultiValues && f.valueMulti != []
    ensures ValueToJson(f).Arr? ==> ValueToJson(f).items == StrArray(f.valueMulti)
    ensures ValueToJson(f).Num? <==>
      !(f.allowMultiValues && f.valueMulti != []) && IsIdKind(f.kind) && ParseI64(f.value).Some?
    ensures ValueToJson(f).Num? ==> ValueToJson(f).n == Int(ParseI64(f.value).value)
    ensures ValueToJson(f).Str? ==> ValueToJson(f).s == f.value
    ensures f.kind.Number? && !f.allowMultiValues ==> ValueToJson(f) == Str(f.value)
  {
  }

  /**
   * What reading a written value back keeps: the values of a multi-value
   * field joined by `", "`, no value list for any other field, and an id
   * written as an integer in its canonical decimal form.
   */
  predicate ValueRoundTrips(f: ExtraField)
  {
    if f.allowMultiValues && f.valueMulti != [] then f.value == Join(f.valueMulti, ", ")
    else f.valueMulti == [] && (IsIdKind(f.kind) && ParseI64(f.value).Some? ==> IntToString(ParseI64(f.value).value) == f.value)
  }

  /** The import reads a written value back as the field's value pair exactly when `ValueRoundTrips` holds. */
  lemma ValueToJsonImport(f: ExtraField)
    ensures FieldValue(Some(ValueToJson(f))) == (f.value, f.valueMulti) <==> ValueRoundTrips(f)
  {
    if f.allowMultiValues && f.valueMulti != [] {
      StringsOfStrArray(f.valueMulti);
    }
  }

  // ---------------------------------------------------------------------------
  // The eLabFTW metadata document

  /** The members of one field's object, in the order they are inserted. */
  const FIELD_KEYS: seq<string> := ["type", "options", "unit", "units", "value", "position", "required",
    "description", "allow_multi_values", "blank_value_on_duplicate", "group_id", "readonly"]

  lemma FieldKeysDistinct()
    ensures |FIELD_KEYS| == 12 && DistinctKeys(FIELD_KEYS)
  {
  }

  /**
   * The slot of each member: the kind token; options and units only when
   * there are some; unit, position, description and group id when set;
   * the flags only when they are `true`.
   */
  function FieldSlots(f: ExtraField): (r: seq<Option<Json>>)
    ensures |r| == 12
  {
    [ Some(Str(AsStr(f.kind))),
      if f.options != [] then Some(Arr(StrArray(f.options))) else None,
      OptStr(f.unit),
      if f.units != [] then Some(Arr(StrArray(f.units))) else None,
      Some(ValueToJson(f)),
      OptInt(f.position),
      Flag(f.required),
      OptStr(f.description),
      Flag(f.allowMultiValues),
      Flag(f.blankValueOnDuplicate),
      OptInt(f.groupId),
      Flag(f.readonly) ]
  }

  /** The object of one field in the `extra_fields` map. */
  function FieldObject(f: ExtraField): (r: Json)
    ensures r.Obj?
  {
    Obj(Present(FIELD_KEYS, FieldSlots(f)))
  }

  /** What `DecodeFieldRaw` finds under each key of a field's object: the slot of that key. */
  lemma FieldMembers(f: ExtraField)
    ensures var m := FieldObject(f).members;
      && Member(m, "type") == Ok(FieldSlots(f)[0])
      && Member(m, "options") == Ok(FieldSlots(f)[1])
      && Member(m, "unit") == Ok(FieldSlots(f)[2])
      && Member(m, "units") == Ok(FieldSlots(f)[3])
      && Member(m, "value") == Ok(FieldSlots(f)[4])
      && Member(m, "position") == Ok(FieldSlots(f)[5])
      && Member(m, "required") == Ok(FieldSlots(f)[6])
      && Member(m, "description") == Ok(FieldSlots(f)[7])
      && Member(m, "allow_multi_values") == Ok(FieldSlots(f)[8])
      && Member(m, "blank_value_on_duplicate") == Ok(FieldSlots(f)[9])
      && Member(m, "group_id") == Ok(FieldSlots(f)[10])
      && Member(m, "readonly") == Ok(FieldSlots(f)[11])
  {
    var vals := FieldSlots(f);
    FieldKeysDistinct();
    PresentAt(FIELD_KEYS, vals, 0);
    PresentAt(FIELD_KEYS, vals, 1);
    PresentAt(FIELD_KEYS, vals, 2);
    PresentAt(FIELD_KEYS, vals, 3);
    PresentAt(FIELD_KEYS, vals, 4);
    PresentAt(FIELD_KEYS, vals, 5);
    PresentAt(FIELD_KEYS, vals, 6);
    PresentAt(FIELD_KEYS, vals, 7);
    PresentAt(FIELD_KEYS, vals, 8);
    PresentAt(FIELD_KEYS, vals, 9);
    PresentAt(FIELD_KEYS, vals, 10);
    PresentAt(FIELD_KEYS, vals, 11);
  }

  /** The raw entry the import reads from a field's object. */
  function RawOf(f: ExtraField): (raw: FieldRaw)
  {
    FieldRaw(AsStr(f.kind), if f.options != [] then StrArray(f.options) else [], f.unit,
      if f.units != [] then StrArray(f.units) else [], Some(ValueToJson(f)), f.position, f.required,
      f.description, f.allowMultiValues, f.blankValueOnDuplicate, f.readonly, OptInt(f.groupId))
  }

  /** Each slot decodes to the matching part of `RawOf`: kind, options, unit and units. */
  lemma SlotsDecodeLists(f: ExtraField)
    ensures var vals := FieldSlots(f); var raw := RawOf(f);
      && DecodeString(vals[0]) == Ok(raw.kind)
      && DecodeArray(vals[1]) == Ok(raw.options)
      && DecodeOptString(vals[2]) == Ok(raw.unit)
      && DecodeArray(vals[3]) == Ok(raw.units)
  {
  }

  /** Value, position, description and group id. */
  lemma SlotsDecodeValues(f: ExtraField)
    ensures var vals := FieldSlots(f); var raw := RawOf(f);
      && DecodeOptValue(vals[4]) == raw.value
      && DecodeOptI32(vals[5]) == Ok(raw.position)
      && DecodeOptString(vals[7]) == Ok(raw.description)
      && DecodeOptValue(vals[10]) == raw.groupId
  {
  }

  /** The four flags. */
  lemma SlotsDecodeFlags(f: ExtraField)
    ensures var vals := FieldSlots(f); var raw := RawOf(f);
      && DecodeBool(vals[6]) == Ok(raw.required)
      && DecodeBool(vals[8]) == Ok(raw.allowMultiValues)
      && DecodeBool(vals[9]) == Ok(raw.blankValueOnDuplicate)
      && DecodeBool(vals[11]) == Ok(raw.readonly)
  {
  }

  /** Every field's object decodes, to the raw entry `RawOf` describes. */
  lemma FieldObjectDecodes(f: ExtraField)
    ensures DecodeFieldRaw(FieldObject(f)) == Ok(RawOf(f))
  {
    FieldMembers(f);
    SlotsDecodeLists(f);
    SlotsDecodeValues(f);
    SlotsDecodeFlags(f);
  }

  /** The eLabFTW tokens of the known kinds have no surrounding whitespace. */
  lemma KnownTokenTrimmed(k: Kind)
    requires !k.Unknown?
    ensures IsTrimmed(AsStr(k))
  {
  }

  predicate KindRoundTrips(k: Kind)
  {
    k.Unknown? ==> IsTrimmed(k.raw) && k.raw !in Tokens(KindTable)
  }

  /** A written kind is read back as the same kind unless it is an unknown token that trimming or the table would change. */
  lemma KindRoundTrip(k: Kind)
    ensures FromStr(Trim(AsStr(k))) == k <==> KindRoundTrips(k)
  {
    if !k.Unknown? {
      KnownTokenTrimmed(k);
      TrimOfTrimmed(AsStr(k));
      FromStrAsStr(k);
    } else {
      FromStrKnown(Trim(k.raw));
      TrimIsTrimmed(k.raw);
      if IsTrimmed(k.raw) {
        TrimOfTrimmed(k.raw);
      }
    }
  }

  /** A group id written as an integer is read back unchanged. */
  lemma GroupIdRoundTrip(g: Option<I32>)
    ensures GroupIdOf(OptInt(g)) == g
  {
  }

  /**
   * The fields that export and import carry over unchanged: a kind token
   * the import recognises as itself, no blank unit or description (the
   * import drops those), and a value that `ValueRoundTrips`.
   */
  predicate RoundTrips(f: ExtraField)
  {
    && KindRoundTrips(f.kind)
    && (f.unit.Some? ==> !AllWhitespace(f.unit.value))
    && (f.description.Some? ==> !AllWhitespace(f.description.value))
    && ValueRoundTrips(f)
  }

  /** Every field `RoundTrips`. */
  predicate AllRoundTrip(fields: seq<ExtraField>)
  {
    forall i :: 0 <= i < |fields| ==> RoundTrips(fields[i])
  }

  /** Converting the raw entry of a field gives the field back exactly when `RoundTrips` holds. */
  lemma ConvertRawOf(f: ExtraField)
    ensures ConvertField((f.fieldLabel, RawOf(f))) == f <==> RoundTrips(f)
  {
    var raw := RawOf(f);
    KindRoundTrip(f.kind);
    ValueToJsonImport(f);
    NonBlankSpec(f.unit);
    NonBlankSpec(f.description);
    GroupIdRoundTrip(f.groupId);
    StringsOfStrArray(f.options);
    StringsOfStrArray(f.units);
    assert Strings(raw.options) == f.options;
    assert Strings(raw.units) == f.units;
  }

  /**
   * Export then import of one field: its object always decodes, and the
   * field read back is the field written exactly when `RoundTrips` holds.
   */
  lemma FieldRoundTrip(f: ExtraField)
    ensures DecodeFieldRaw(FieldObject(f)).Ok?
    ensures ConvertField((f.fieldLabel, DecodeFieldRaw(FieldObject(f)).value)) == f <==> RoundTrips(f)
  {
    FieldObjectDecodes(f);
    ConvertRawOf(f);
  }

  // ---------------------------------------------------------------------------
  // The `extra_fields` map

  /** Every member named `k` given the value `v`, in place. */
  function ReplaceKey(m: seq<(string, Json)>, k: string, v: Json): (r: seq<(string, Json)>)
    ensures |r| == |m|
  {
    if m == [] then []
    else
      var n := |m| - 1;
      ReplaceKey(m[..n], k, v) + [if m[n].0 == k then (k, v) else m[n]]
  }

  /**
   * `Map::insert`: a key already present keeps its place and takes the new
   * value; a new key is appended.
   */
  function Insert(m: seq<(string, Json)>, k: string, v: Json): (r: seq<(string, Json)>)
  {
    if Occurrences(m, k) == 0 then m + [(k, v)] else ReplaceKey(m, k, v)
  }

  lemma {:induction false} ReplaceKeySpec(m: seq<(string, Json)>, k: string, v: Json, key: string)
    ensures Occurrences(ReplaceKey(m, k, v), key) == Occurrences(m, key)
    ensures Lookup(ReplaceKey(m, k, v), key) == if key == k && Occurrences(m, k) > 0 then Some(v) else Lookup(m, key)
  {
    if m != [] {
      var n := |m| - 1;
      var r := ReplaceKey(m, k, v);
      assert r[..n] == ReplaceKey(m[..n], k, v);
      ReplaceKeySpec(m[..n], k, v, key);
    }
  }

  /** After an insert the key holds the new value once more than never; other keys are untouched. */
  lemma InsertSpec(m: seq<(string, Json)>, k: string, v: Json, key: string)
    ensures Lookup(Insert(m, k, v), key) == if key == k then Some(v) else Lookup(m, key)
    ensures Occurrences(Insert(m, k, v), key) ==
      if key == k && Occurrences(m, k) == 0 then 1 else Occurrences(m, key)
  {
    if Occurrences(m, k) == 0 {
      var r := m + [(k, v)];
      assert r[..|r| - 1] == m;
    } else {
      ReplaceKeySpec(m, k, v, key);
    }
  }

  /** The object of each field under its label, inserted in field order. */
  function FieldsMembers(fields: seq<ExtraField>): (r: seq<(string, Json)>)
  {
    if fields == [] then []
    else
      var n := |fields| - 1;
      Insert(FieldsMembers(fields[..n]), fields[n].fieldLabel, FieldObject(fields[n]))
  }

  /** The last field with label `k`, if any. */
  function LastWithLabel(fields: seq<ExtraField>, k: string): (r: Option<ExtraField>)
    ensures r.Some? ==> r.value in fields && r.value.fieldLabel == k
    ensures r.None? <==> forall i :: 0 <= i < |fields| ==> fields[i].fieldLabel != k
  {
    if fields == [] then None
    else if fields[|fields| - 1].fieldLabel == k then Some(fields[|fields| - 1])
    else
      var r := LastWithLabel(fields[..|fields| - 1], k);
      assert forall i :: 0 <= i < |fields| - 1 ==> fields[..|fields| - 1][i] == fields[i];
      r
  }

  /**
   * The map holds each label once, with the object of the last field that
   * carries it: a later field with the same label replaces an earlier one.
   */
  lemma {:induction false} FieldsMembersLookup(fields: seq<ExtraField>, k: string)
    ensures Occurrences(FieldsMembers(fields), k) <= 1
    ensures Lookup(FieldsMembers(fields), k) ==
      match LastWithLabel(fields, k) case None => None case Some(f) => Some(FieldObject(f))
  {
    if fields != [] {
      var n := |fields| - 1;
      FieldsMembersLookup(fields[..n], k);
      InsertSpec(FieldsMembers(fields[..n]), fields[n].fieldLabel, FieldObject(fields[n]), k);
    }
  }

  function LabelledObject(f: ExtraField): (string, Json)
  {
    (f.fieldLabel, FieldObject(f))
  }

  /** With distinct labels every insert appends: the map lists the fields in order. */
  lemma {:induction false} FieldsMembersDistinct(fields: seq<ExtraField>)
    requires DistinctLabels(fields)
    ensures FieldsMembers(fields) == MapSeq(LabelledObject, fields)
  {
    if fields != [] {
      var n := |fields| - 1;
      var front := fields[..n];
      assert DistinctLabels(front);
      FieldsMembersDistinct(front);
      assert LastWithLabel(front, fields[n].fieldLabel).None?;
      FieldsMembersLookup(front, fields[n].fieldLabel);
    }
  }

  // ---------------------------------------------------------------------------
  // Groups and the document

  /** One group as `{"id": …, "name": …}`; its position is not written. */
  function GroupJson(g: ExtraFieldGroup): (r: Json)
    ensures r.Obj?
  {
    Obj([("id", Num(Int(g.id))), ("name", Str(g.name))])
  }

  /**
   * The document `reconstruct_elabftw_metadata` serializes: an `elabftw`
   * block with `display_main_text` set and the group list, and the
   * `extra_fields` map.
   */
  function MetadataRoot(fields: seq<ExtraField>, groups: seq<ExtraFieldGroup>): (r: Json)
    ensures r.Obj?
  {
    Obj([("elabftw", Obj([("display_main_text", Bool(true)), ("extra_fields_groups", Arr(MapSeq(GroupJson, groups)))])),
         ("extra_fields", Obj(FieldsMembers(fields)))])
  }

  // ---------------------------------------------------------------------------
  // Export then import

  function RawEntry(f: ExtraField): (string, FieldRaw)
  {
    (f.fieldLabel, RawOf(f))
  }

  /** Removing a key no entry has changes nothing. */
  lemma {:induction false} WithoutAbsentKey(entries: seq<(string, FieldRaw)>, key: string)
    requires forall i :: 0 <= i < |entries| ==> entries[i].0 != key
    ensures WithoutKey(entries, key) == entries
  {
    if entries != [] {
      WithoutAbsentKey(entries[1..], key);
      assert [entries[0]] + entries[1..] == entries;
    }
  }

  /** The map of fields with distinct labels decodes entry by entry, in order. */
  lemma {:induction false} EntriesDecode(fields: seq<ExtraField>)
    requires DistinctLabels(fields)
    ensures DecodeEntries(MapSeq(LabelledObject, fields)) == Ok(MapSeq(RawEntry, fields))
  {
    if fields != [] {
      var n := |fields| - 1;
      var front := fields[..n];
      var members := MapSeq(LabelledObject, fields);
      assert members[..|members| - 1] == MapSeq(LabelledObject, front);
      assert DistinctLabels(front);
      EntriesDecode(front);
      FieldObjectDecodes(fields[n]);
      var raws := MapSeq(RawEntry, front);
      forall i | 0 <= i < |raws| ensures raws[i].0 != fields[n].fieldLabel {
        MapSeqAt(RawEntry, front, i);
      }
      WithoutAbsentKey(raws, fields[n].fieldLabel);
    }
  }

  /** A field that round-trips is converted back from its raw entry. */
  lemma ConvertRawEntry(f: ExtraField)
    requires RoundTrips(f)
    ensures ConvertField(RawEntry(f)) == f
  {
    ConvertRawOf(f);
  }

  /** Mapping `h` and then `g` gives back every list on which `g` undoes `h`. */
  lemma {:induction false} MapSeqInverse<A, B>(h: A -> B, g: B -> A, s: seq<A>)
    requires forall i :: 0 <= i < |s| ==> g(h(s[i])) == s[i]
    ensures MapSeq(g, MapSeq(h, s)) == s
  {
    if s != [] {
      var n := |s| - 1;
      var hs := MapSeq(h, s);
      assert hs[..n] == MapSeq(h, s[..n]);
      MapSeqInverse(h, g, s[..n]);
      assert s == s[..n] + [s[n]];
    }
  }

  /** Converting the decoded entries gives back fields that each round-trip. */
  lemma ConvertRawEntries(fields: seq<ExtraField>)
    requires forall i :: 0 <= i < |fields| ==> ConvertField(RawEntry(fields[i])) == fields[i]
    ensures ConvertAll(MapSeq(RawEntry, fields)) == fields
  {
    MapSeqInverse(RawEntry, ConvertField, fields);
  }

  lemma ConvertRawEntriesEach(fields: seq<ExtraField>)
    requires AllRoundTrip(fields)
    ensures forall i :: 0 <= i < |fields| ==> ConvertField(RawEntry(fields[i])) == fields[i]
  {
    forall i | 0 <= i < |fields| ensures ConvertField(RawEntry(fields[i])) == fields[i] {
      ConvertRawEntry(fields[i]);
    }
  }

  function GroupRawOf(g: ExtraFieldGroup): GroupRaw
  {
    GroupRaw(Num(Int(g.id)), g.name)
  }

  /** The members of a two-member object with distinct keys. */
  lemma TwoMembers(a: string, va: Json, b: string, vb: Json)
    requires a != b
    ensures Member([(a, va), (b, vb)], a) == Ok(Some(va))
    ensures Member([(a, va), (b, vb)], b) == Ok(Some(vb))
  {
    var m := [(a, va), (b, vb)];
    var m1 := [(a, va)];
    assert m[..1] == m1 && m1[..0] == [];
    assert Occurrences(m1, a) == 1 && Occurrences(m1, b) == 0;
    assert Occurrences(m, a) == 1 && Occurrences(m, b) == 1;
    assert Lookup(m1, a) == Some(va);
  }

  lemma GroupDecodes(g: ExtraFieldGroup)
    ensures DecodeGroupRaw(GroupJson(g)) == Ok(GroupRawOf(g))
  {
    TwoMembers("id", Num(Int(g.id)), "name", Str(g.name));
  }

  /** The group list decodes group by group. */
  lemma {:induction false} GroupsDecode(groups: seq<ExtraFieldGroup>)
    ensures DecodeGroups(MapSeq(GroupJson, groups)) == Ok(MapSeq(GroupRawOf, groups))
  {
    if groups != [] {
      var n := |groups| - 1;
      var xs := MapSeq(GroupJson, groups);
      assert xs[..|xs| - 1] == MapSeq(GroupJson, groups[..n]);
      assert xs[|xs| - 1] == GroupJson(groups[n]);
      GroupsDecode(groups[..n]);
      GroupDecodes(groups[n]);
    }
  }

  /** Groups numbered by their place in the list are read back as they are. */
  lemma {:induction false} GroupsReadBack(groups: seq<ExtraFieldGroup>, n: nat)
    requires n <= |groups|
    requires forall i :: 0 <= i < |groups| ==> groups[i].position == i
    ensures GroupsUpTo(MapSeq(GroupRawOf, groups), n) == groups[..n]
  {
    if n > 0 {
      GroupsReadBack(groups, n - 1);
      var raws := MapSeq(GroupRawOf, groups);
      MapSeqAt(GroupRawOf, groups, n - 1);
      assert GroupAt(raws, n - 1) == Some(groups[n - 1]);
      assert groups[..n] == groups[..n - 1] + [groups[n - 1]];
    }
  }

  /** The two blocks of the document, as `DecodeEnvelope` looks them up. */
  lemma RootMembers(fields: seq<ExtraField>, groups: seq<ExtraFieldGroup>)
    ensures var m := MetadataRoot(fields, groups).members;
      && Member(m, "extra_fields") == Ok(Some(Obj(FieldsMembers(fields))))
      && Member(m, "elabftw") == Ok(Some(m[0].1))
      && DecodeBlock(Some(m[0].1)) == DecodeGroups(MapSeq(GroupJson, groups))
  {
    var m := MetadataRoot(fields, groups).members;
    TwoMembers("elabftw", m[0].1, "extra_fields", m[1].1);
    var block := m[0].1.members;
    TwoMembers("display_main_text", block[0].1, "extra_fields_groups", block[1].1);
  }

  /** The document decodes to the fields' raw entries and the groups' raw entries. */
  lemma EnvelopeOfRoot(fields: seq<ExtraField>, groups: seq<ExtraFieldGroup>)
    requires DistinctLabels(fields)
    ensures DecodeEnvelope(MetadataRoot(fields, groups)) ==
      Ok(Envelope(MapSeq(RawEntry, fields), MapSeq(GroupRawOf, groups)))
  {
    RootMembers(fields, groups);
    FieldsMembersDistinct(fields);
    EntriesDecode(fields);
    GroupsDecode(groups);
  }

  /** The import of the document, given fields that convert back from their raw entries. */
  lemma {:induction false} ImportOfRoot(fields: seq<ExtraField>, groups: seq<ExtraFieldGroup>)
    requires DistinctLabels(fields)
    requires forall i :: 0 <= i < |fields| ==> ConvertField(RawEntry(fields[i])) == fields[i]
    requires forall i :: 0 <= i < |groups| ==> groups[i].position == i
    ensures ParseSpec(MetadataRoot(fields, groups)) == Ok(ExtraFieldsImport(SortFields(fields), groups))
  {
    EnvelopeOfRoot(fields, groups);
    ConvertRawEntries(fields);
    GroupsReadBack(groups, |groups|);
    assert groups[..|groups|] == groups;
  }

  /**
   * Export then import: the metadata document of fields with distinct
   * labels that each `RoundTrips`, and of groups numbered by their place,
   * is imported as the same fields in `cmp_key` order and the same groups.
   */
  lemma {:induction false} ExportImportRoundTrip(fields: seq<ExtraField>, groups: seq<ExtraFieldGroup>)
    requires DistinctLabels(fields)
    requires AllRoundTrip(fields)
    requires forall i :: 0 <= i < |groups| ==> groups[i].position == i
    ensures ParseSpec(MetadataRoot(fields, groups)) == Ok(ExtraFieldsImport(SortFields(fields), groups))
  {
    ConvertRawEntriesEach(fields);
    ImportOfRoot(fields, groups);
  }

  /** Fields already in `cmp_key` order come back in the same order. */
  lemma {:induction false} ExportImportSorted(fields: seq<ExtraField>, groups: seq<ExtraFieldGroup>)
    requires DistinctLabels(fields) && Sorted(fields)
    requires AllRoundTrip(fields)
    requires forall i :: 0 <= i < |groups| ==> groups[i].position == i
    ensures ParseSpec(MetadataRoot(fields, groups)) == Ok(ExtraFieldsImport(fields, groups))
  {
    ExportImportRoundTrip(fields, groups);
    SortFieldsSorted(fields);
    SortedPermutationUnique(fields, SortFields(fields));
  }

  // ---------------------------------------------------------------------------
  // `reconstruct_elabftw_metadata`

  /** The metadata document as the JSON text `serde_json::to_string` writes. */
  function MetadataText(fields: seq<ExtraField>, groups: seq<ExtraFieldGroup>): string
  {
    Serialize(MetadataRoot(fields, groups))
  }

  /**
   * `reconstruct_elabftw_metadata`: the group list, the `extra_fields` map
   * filled field by field, and the document around them as one JSON text.
   */
  method ReconstructElabftwMetadata(fields: seq<ExtraField>, groups: seq<ExtraFieldGroup>) returns (text: string)
    ensures text == MetadataText(fields, groups)
  {
    var groupsJson := MapSeq(GroupJson, groups);
    var members: seq<(string, Json)> := [];
    for i := 0 to |fields|
      invariant members == FieldsMembers(fields[..i])
    {
      assert fields[..i + 1][..i] == fields[..i];
      members := Insert(members, fields[i].fieldLabel, FieldObject(fields[i]));
    }
    assert fields[..|fields|] == fields;
    var root := Obj([("elabftw", Obj([("display_main_text", Bool(true)), ("extra_fields_groups", Arr(groupsJson))])),
                     ("extra_fields", Obj(members))]);
    text := Serialize(root);
  }

  // ---------------------------------------------------------------------------
  // `PropertyValue` nodes

  /** The members of a field's `PropertyValue` node, in the order they are inserted. */
  const PV_KEYS: seq<string> := ["@id", "@type", "propertyID", "valueReference", "value", "unitText", "description"]

  lemma PvKeysDistinct()
    ensures |PV_KEYS| == 7 && DistinctKeys(PV_KEYS)
  {
  }

  /** The node id built from a fresh UUID. */
  function PvId(u: string): (id: string)
    ensures |id| == |u| + 5 && id[5..] == u
  {
    "pv://" + u
  }

  /** Distinct UUIDs give distinct node ids. */
  lemma PvIdInjective(u: string, v: string)
    ensures PvId(u) == PvId(v) <==> u == v
  {
    if PvId(u) == PvId(v) {
      assert PvId(u)[5..] == PvId(v)[5..];
    }
  }

  /** The slots of a field's node: id, type, label, kind token and value always; unit and description when set. */
  function PvSlots(f: ExtraField, id: string): (r: seq<Option<Json>>)
    ensures |r| == 7
  {
    [Some(Str(id)), Some(Str("PropertyValue")), Some(Str(f.fieldLabel)), Some(Str(AsStr(f.kind))),
     Some(ValueToJson(f)), OptStr(f.unit), OptStr(f.description)]
  }

  /** The `PropertyValue` node of one field. */
  function PropertyValue(f: ExtraField, id: string): (r: Json)
    ensures r.Obj?
  {
    Obj(Present(PV_KEYS, PvSlots(f, id)))
  }

  /** What a field's node holds under each key, and that it holds nothing else. */
  lemma PropertyValueMembers(f: ExtraField, id: string)
    ensures var m := PropertyValue(f, id).members;
      && Lookup(m, "@id") == Some(Str(id))
      && Lookup(m, "@type") == Some(Str("PropertyValue"))
      && Lookup(m, "propertyID") == Some(Str(f.fieldLabel))
      && Lookup(m, "valueReference") == Some(Str(AsStr(f.kind)))
      && Lookup(m, "value") == Some(ValueToJson(f))
      && Lookup(m, "unitText") == OptStr(f.unit)
      && Lookup(m, "description") == OptStr(f.description)
    ensures forall k :: k !in PV_KEYS ==> Lookup(PropertyValue(f, id).members, k).None?
  {
    var vals := PvSlots(f, id);
    PvKeysDistinct();
    PresentAt(PV_KEYS, vals, 0);
    PresentAt(PV_KEYS, vals, 1);
    PresentAt(PV_KEYS, vals, 2);
    PresentAt(PV_KEYS, vals, 3);
    PresentAt(PV_KEYS, vals, 4);
    PresentAt(PV_KEYS, vals, 5);
    PresentAt(PV_KEYS, vals, 6);
    forall k | k !in PV_KEYS ensures Lookup(PropertyValue(f, id).members, k).None? {
      PresentAbsent(PV_KEYS, vals, k);
    }
  }

  /** The members of the node that carries the metadata document. */
  const METADATA_KEYS: seq<string> := ["@id", "@type", "propertyID", "description", "value"]

  /** The constant description of the metadata node. */
  const METADATA_DESCRIPTION: string := "eLabFTW metadata JSON as string"

  function MetadataSlots(id: string, text: string): (r: seq<Option<Json>>)
    ensures |r| == 5
  {
    [Some(Str(id)), Some(Str("PropertyValue")), Some(Str("elabftw_metadata")), Some(Str(METADATA_DESCRIPTION)),
     Some(Str(text))]
  }

  /** The `PropertyValue` node whose value is the metadata document as a string. */
  function MetadataProperty(id: string, text: string): (r: Json)
    ensures r.Obj?
  {
    Obj(Present(METADATA_KEYS, MetadataSlots(id, text)))
  }

  lemma MetadataPropertyMembers(id: string, text: string)
    ensures var m := MetadataProperty(id, text).members;
      && |m| == 5
      && Lookup(m, "@id") == Some(Str(id))
      && Lookup(m, "@type") == Some(Str("PropertyValue"))
      && Lookup(m, "propertyID") == Some(Str("elabftw_metadata"))
      && Lookup(m, "description") == Some(Str(METADATA_DESCRIPTION))
      && Lookup(m, "value") == Some(Str(text))
  {
    var vals := MetadataSlots(id, text);
    assert DistinctKeys(METADATA_KEYS);
    PresentAt(METADATA_KEYS, vals, 0);
    PresentAt(METADATA_KEYS, vals, 1);
    PresentAt(METADATA_KEYS, vals, 2);
    PresentAt(METADATA_KEYS, vals, 3);
    PresentAt(METADATA_KEYS, vals, 4);
    PresentLength(METADATA_KEYS, vals);
  }

  /** With every slot filled, there is one member per key. */
  lemma {:induction false} PresentLength(keys: seq<string>, vals: seq<Option<Json>>)
    requires |keys| == |vals| && forall i :: 0 <= i < |vals| ==> vals[i].Some?
    ensures |Present(keys, vals)| == |keys|
  {
    if keys != [] {
      var n := |keys| - 1;
      PresentLength(keys[..n], vals[..n]);
    }
  }

  // ---------------------------------------------------------------------------
  // `build_extra_fields_export`

  /** `ExtraFieldsExport`. */
  datatype ExtraFieldsExport = ExtraFieldsExport(
    propertyValues: seq<Json>, metadataProperty: Json, variableMeasuredIds: seq<string>)

  /**
   * What `build_extra_fields_export` produces, given the metadata text, when
   * the `k`-th UUID it draws is `uuid(k)`: field `i` gets the node id of
   * `uuid(i)`, the metadata node the one drawn after all fields, and that id
   * comes first in the list of ids.
   */
  function ExportSpec(fields: seq<ExtraField>, uuid: nat -> string, text: string): (r: ExtraFieldsExport)
  {
    ExtraFieldsExport(
      FieldNodes(fields, uuid),
      MetadataProperty(PvId(uuid(|fields|)), text),
      [PvId(uuid(|fields|))] + FieldIds(uuid, |fields|))
  }

  /** The node ids of the first `n` draws. */
  function FieldIds(uuid: nat -> string, n: nat): (r: seq<string>)
    ensures |r| == n && forall i :: 0 <= i < n ==> r[i] == PvId(uuid(i))
  {
    seq(n, i requires 0 <= i < n => PvId(uuid(i)))
  }

  /** The node of each field, field `i` with the id of draw `i`. */
  function FieldNodes(fields: seq<ExtraField>, uuid: nat -> string): (r: seq<Json>)
    ensures |r| == |fields|
    ensures forall i :: 0 <= i < |fields| ==> r[i] == PropertyValue(fields[i], PvId(uuid(i)))
  {
    seq(|fields|, i requires 0 <= i < |fields| => PropertyValue(fields[i], PvId(uuid(i))))
  }

  /** The loop of `build_extra_fields_export`: one node per field, each with a freshly drawn id. */
  method EmitPropertyValues(fields: seq<ExtraField>, uuid: nat -> string) returns (propertyValues: seq<Json>, ids: seq<string>)
    ensures propertyValues == FieldNodes(fields, uuid)
    ensures ids == FieldIds(uuid, |fields|)
  {
    propertyValues := [];
    ids := [];
    for i := 0 to |fields|
      invariant |propertyValues| == i && |ids| == i
      invariant forall k :: 0 <= k < i ==> propertyValues[k] == PropertyValue(fields[k], PvId(uuid(k)))
      invariant forall k :: 0 <= k < i ==> ids[k] == PvId(uuid(k))
    {
      var id := PvId(uuid(i));
      ids := ids + [id];
      propertyValues := propertyValues + [PropertyValue(fields[i], id)];
    }
  }

  /**
   * `build_extra_fields_export`: the metadata text, one node per field in
   * field order, and the metadata node, drawn last, whose id is put in front
   * of the ids.
   */
  method BuildExtraFieldsExport(fields: seq<ExtraField>, groups: seq<ExtraFieldGroup>, uuid: nat -> string)
    returns (r: ExtraFieldsExport)
    ensures r == ExportSpec(fields, uuid, MetadataText(fields, groups))
  {
    var metadataJson := ReconstructElabftwMetadata(fields, groups);
    var propertyValues, ids := EmitPropertyValues(fields, uuid);
    var metadataId := PvId(uuid(|fields|));
    ids := [metadataId] + ids;
    r := ExtraFieldsExport(propertyValues, MetadataProperty(metadataId, metadataJson), ids);
  }

  /** The metadata node's id is the first of the linked ids. */
  lemma MetadataIdFirst(fields: seq<ExtraField>, uuid: nat -> string, text: string)
    ensures var r := ExportSpec(fields, uuid, text);
      Lookup(r.metadataProperty.members, "@id") == Some(Str(r.variableMeasuredIds[0]))
  {
    MetadataPropertyMembers(PvId(uuid(|fields|)), text);
  }

  /** Field `i`'s node has the linked id at place `i + 1`. */
  lemma FieldIdLinked(fields: seq<ExtraField>, uuid: nat -> string, text: string, i: nat)
    requires i < |fields|
    ensures var r := ExportSpec(fields, uuid, text);
      Lookup(r.propertyValues[i].members, "@id") == Some(Str(r.variableMeasuredIds[i + 1]))
  {
    PropertyValueMembers(fields[i], PvId(uuid(i)));
  }

  /**
   * The ids `variableMeasured` links are the ids of the nodes: the metadata
   * node's first, then each field's in field order.
   */
  lemma ExportIdsLinked(fields: seq<ExtraField>, uuid: nat -> string, text: string)
    ensures var r := ExportSpec(fields, uuid, text);
      && |r.variableMeasuredIds| == |r.propertyValues| + 1 == |fields| + 1
      && Lookup(r.metadataProperty.members, "@id") == Some(Str(r.variableMeasuredIds[0]))
      && forall i :: 0 <= i < |fields| ==>
           Lookup(r.propertyValues[i].members, "@id") == Some(Str(r.variableMeasuredIds[i + 1]))
  {
    MetadataIdFirst(fields, uuid, text);
    forall i | 0 <= i < |fields|
      ensures Lookup(ExportSpec(fields, uuid, text).propertyValues[i].members, "@id") ==
        Some(Str(ExportSpec(fields, uuid, text).variableMeasuredIds[i + 1]))
    {
      FieldIdLinked(fields, uuid, text, i);
    }
  }

  /** Each field's node carries its label, kind token, value, and unit and description when set. */
  lemma ExportNodes(fields: seq<ExtraField>, uuid: nat -> string, text: string, i: nat)
    requires i < |fields|
    ensures var m := ExportSpec(fields, uuid, text).propertyValues[i].members;
      && Lookup(m, "propertyID") == Some(Str(fields[i].fieldLabel))
      && Lookup(m, "valueReference") == Some(Str(AsStr(fields[i].kind)))
      && Lookup(m, "value") == Some(ValueToJson(fields[i]))
      && Lookup(m, "unitText") == OptStr(fields[i].unit)
      && Lookup(m, "description") == OptStr(fields[i].description)
  {
    PropertyValueMembers(fields[i], PvId(uuid(i)));
  }

  /** Draws that never repeat a UUID give node ids that never repeat. */
  lemma ExportIdsDistinct(fields: seq<ExtraField>, uuid: nat -> string, text: string)
    requires forall a, b :: 0 <= a < b <= |fields| ==> uuid(a) != uuid(b)
    ensures DistinctKeys(ExportSpec(fields, uuid, text).variableMeasuredIds)
  {
    var ids := ExportSpec(fields, uuid, text).variableMeasuredIds;
    forall a, b | 0 <= a < b < |ids| ensures ids[a] != ids[b] {
      var ua := if a == 0 then |fields| else a - 1;
      var ub := b - 1;
      assert ids[a] == PvId(uuid(ua)) && ids[b] == PvId(uuid(ub));
      PvIdInjective(uuid(ua), uuid(ub));
    }
  }

  /**
   * The metadata node carries the metadata text, and the document that text
   * serializes is imported as the exported fields in `cmp_key` order and the
   * exported groups whenever the export-import round trip applies.
   */
  lemma ExportCarriesMetadata(fields: seq<ExtraField>, groups: seq<ExtraFieldGroup>, uuid: nat -> string, text: string)
    requires text == MetadataText(fields, groups)
    requires DistinctLabels(fields) && AllRoundTrip(fields)
    requires forall i :: 0 <= i < |groups| ==> groups[i].position == i
    ensures Lookup(ExportSpec(fields, uuid, text).metadataProperty.members, "value") == Some(Str(text))
    ensures ParseSpec(MetadataRoot(fields, groups)) == Ok(ExtraFieldsImport(SortFields(fields), groups))
  {
    MetadataPropertyMembers(PvId(uuid(|fields|)), text);
    ExportImportRoundTrip(fields, groups);
  }
}
