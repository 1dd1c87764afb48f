/**
 * eLabFTW "extra fields": the field kinds and their tokens, the sort key,
 * per-kind validation, and the import of an eLabFTW metadata document into
 * fields and groups.
 */
module DomainExtraFields {
  import opened Wrappers
  import opened Text
  import opened Json

  type I32 = x: int | I32_MIN <= x <= I32_MAX

  // ---------------------------------------------------------------------------
  // Field kinds

  /** `ExtraFieldKind`. */
  datatype Kind =
    | Text | Number | Select | Checkbox | Date | DateTimeLocal | Time
    | Url | Email | Radio | Items | Experiments | Users
    | Unknown(raw: string)

  /** The known kinds with their eLabFTW tokens, in the order `from_str` tries them. */
  const KindTable: seq<(string, Kind)> := [
    ("text", Text), ("number", Number), ("select", Select), ("checkbox", Checkbox), ("date", Date),
    ("datetime-local", DateTimeLocal), ("time", Time), ("url", Url), ("email", Email), ("radio", Radio),
    ("items", Items), ("experiments", Experiments), ("users", Users)]

  /** The tokens of the known kinds. */
  function Tokens(t: seq<(string, Kind)>): (r: seq<string>)
    ensures |r| == |t| && forall i :: 0 <= i < |t| ==> r[i] == t[i].0
  {
    seq(|t|, i requires 0 <= i < |t| => t[i].0)
  }

  /** Every row pairs a known kind with the token `as_str` gives it. */
  predicate Consistent(t: seq<(string, Kind)>)
  {
    forall i :: 0 <= i < |t| ==> !t[i].1.Unknown? && AsStr(t[i].1) == t[i].0
  }

  lemma KindTableConsistent()
    ensures Consistent(KindTable)
  {
  }

  /** The kind of the first row whose token is `raw`, or `Unknown(raw)`. */
  function KindLookup(t: seq<(string, Kind)>, raw: string): (k: Kind)
  {
    if t == [] then Unknown(raw)
    else if t[0].0 == raw then t[0].1
    else KindLookup(t[1..], raw)
  }

  /** Over a consistent table the lookup gives back the token, and a known kind exactly for the table's tokens. */
  lemma {:induction false} KindLookupSpec(t: seq<(string, Kind)>, raw: string)
    requires Consistent(t)
    ensures AsStr(KindLookup(t, raw)) == raw
    ensures KindLookup(t, raw).Unknown? <==> raw !in Tokens(t)
  {
    if t != [] && t[0].0 != raw {
      assert Tokens(t) == [t[0].0] + Tokens(t[1..]);
      KindLookupSpec(t[1..], raw);
    }
  }

  /**
   * `ExtraFieldKind::from_str`: a known token gives its kind, anything else
   * is kept verbatim as `Unknown`; the token is always recovered by `AsStr`.
   */
  function FromStr(raw: string): (k: Kind)
  {
    KindLookup(KindTable, raw)
  }

  /** The token is always recovered by `AsStr`, and exactly the tokens of the table name a known kind. */
  lemma FromStrKnown(raw: string)
    ensures AsStr(FromStr(raw)) == raw
    ensures FromStr(raw).Unknown? <==> raw !in Tokens(KindTable)
  {
    KindTableConsistent();
    KindLookupSpec(KindTable, raw);
  }

  /** `ExtraFieldKind::as_str`. */
  function AsStr(k: Kind): (s: string)
    ensures k.Unknown? ==> s == k.raw
  {
    match k
    case Text => "text"
    case Number => "number"
    case Select => "select"
    case Checkbox => "checkbox"
    case Date => "date"
    case DateTimeLocal => "datetime-local"
    case Time => "time"
    case Url => "url"
    case Email => "email"
    case Radio => "radio"
    case Items => "items"
    case Experiments => "experiments"
    case Users => "users"
    case Unknown(raw) => raw
  }

  /** The lookup finds row `i` when no earlier row has its token. */
  lemma {:induction false} KindLookupAt(t: seq<(string, Kind)>, i: nat)
    requires Consistent(t) && i < |t|
    requires forall j :: 0 <= j < i ==> t[j].0 != t[i].0
    ensures KindLookup(t, t[i].0) == t[i].1
  {
    if i > 0 {
      assert Consistent(t[1..]);
      KindLookupAt(t[1..], i - 1);
    }
  }

  /** Every known kind survives a round trip through its token. */
  lemma FromStrAsStr(k: Kind)
    requires !k.Unknown?
    ensures FromStr(AsStr(k)) == k
  {
    KindTableConsistent();
    var i := KindIndex(k);
    KindLookupAt(KindTable, i);
  }

  /** The row of a known kind. */
  function KindIndex(k: Kind): (i: nat)
    requires !k.Unknown?
    ensures i < |KindTable| && KindTable[i].1 == k
    ensures forall j :: 0 <= j < i ==> KindTable[j].0 != KindTable[i].0
  {
    match k
    case Text => 0
    case Number => 1
    case Select => 2
    case Checkbox => 3
    case Date => 4
    case DateTimeLocal => 5
    case Time => 6
    case Url => 7
    case Email => 8
    case Radio => 9
    case Items => 10
    case Experiments => 11
    case Users => 12
  }

  /** An `Unknown` kind holding a known token does not read back as itself. */
  lemma UnknownKnownTokenNotRecovered()
    ensures FromStr(AsStr(Unknown("text"))) == Text
  {
  }

  /** The kinds whose value is an integer id. */
  predicate IsIdKind(k: Kind) { k.Items? || k.Experiments? || k.Users? }

  // ---------------------------------------------------------------------------
  // Fields and groups

  /** `ExtraField`: one field definition with its value. */
  datatype ExtraField = ExtraField(
    fieldLabel: string,
    kind: Kind,
    value: string,
    valueMulti: seq<string>,
    options: seq<string>,
    unit: Option<string>,
    units: seq<string>,
    position: Option<I32>,
    required: bool,
    description: Option<string>,
    allowMultiValues: bool,
    blankValueOnDuplicate: bool,
    groupId: Option<I32>,
    readonly: bool)

  /** `ExtraFieldGroup`. */
  datatype ExtraFieldGroup = ExtraFieldGroup(id: I32, name: string, position: I32)

  /** `ExtraFieldsImport`. */
  datatype ExtraFieldsImport = ExtraFieldsImport(fields: seq<ExtraField>, groups: seq<ExtraFieldGroup>)

  /** `ExtraField::cmp_key`: the position, with a missing one counting as `i32::MAX`, then the label. */
  function CmpKey(f: ExtraField): (key: (int, string))
    ensures f.position.Some? ==> key.0 == f.position.value
    ensures f.position.None? ==> key.0 == I32_MAX
    ensures key.1 == f.fieldLabel
  {
    (f.position.UnwrapOr(I32_MAX), f.fieldLabel)
  }

  /**
   * `str` ordering: lexicographic on characters.  Rust compares the UTF-8
   * bytes, which orders strings the same way as their code points.
   */
  predicate LexLess(a: string, b: string)
  {
    if a == [] then b != []
    else if b == [] then false
    else if a[0] != b[0] then a[0] < b[0]
    else LexLess(a[1..], b[1..])
  }

  lemma LexLessIrreflexive(a: string)
    ensures !LexLess(a, a)
  {
  }

  lemma LexLessTransitive(a: string, b: string, c: string)
    requires LexLess(a, b) && LexLess(b, c)
    ensures LexLess(a, c)
  {
  }

  lemma {:induction false} LexLessAsym(a: string, b: string)
    ensures !(LexLess(a, b) && LexLess(b, a))
  {
    if a != [] && b != [] && a[0] == b[0] {
      LexLessAsym(a[1..], b[1..]);
    }
  }

  /** Two strings are equal or one is below the other. */
  lemma {:induction false} LexLessTotal(a: string, b: string)
    ensures a == b || LexLess(a, b) || LexLess(b, a)
  {
    if a != [] && b != [] && a[0] == b[0] {
      assert a == [a[0]] + a[1..] && b == [b[0]] + b[1..];
      LexLessTotal(a[1..], b[1..]);
    }
  }

  /** The order of `cmp_key` tuples: position first, then label. */
  predicate KeyLess(f: ExtraField, g: ExtraField)
  {
    CmpKey(f).0 < CmpKey(g).0 || (CmpKey(f).0 == CmpKey(g).0 && LexLess(f.fieldLabel, g.fieldLabel))
  }

  predicate KeyLe(f: ExtraField, g: ExtraField)
  {
    !KeyLess(g, f)
  }

  lemma KeyLessAsym(f: ExtraField, g: ExtraField)
    ensures !(KeyLess(f, g) && KeyLess(g, f))
  {
    LexLessAsym(f.fieldLabel, g.fieldLabel);
  }

  lemma KeyLeTrans(f: ExtraField, g: ExtraField, h: ExtraField)
    requires KeyLe(f, g) && KeyLe(g, h)
    ensures KeyLe(f, h)
  {
    var lf, lg, lh := f.fieldLabel, g.fieldLabel, h.fieldLabel;
    LexLessTotal(lf, lg);
    LexLessTotal(lg, lh);
    if LexLess(lf, lg) && LexLess(lg, lh) {
      LexLessTransitive(lf, lg, lh);
    }
    LexLessAsym(lf, lh);
    LexLessIrreflexive(lf);
  }

  lemma KeyLeAntisym(f: ExtraField, g: ExtraField)
    requires KeyLe(f, g) && KeyLe(g, f)
    ensures CmpKey(f) == CmpKey(g)
  {
    LexLessTotal(f.fieldLabel, g.fieldLabel);
  }

  /** `KeyLe` is a total preorder, and it identifies only fields with equal keys. */
  lemma KeyOrder(f: ExtraField, g: ExtraField, h: ExtraField)
    ensures KeyLe(f, f)
    ensures KeyLe(f, g) || KeyLe(g, f)
    ensures KeyLe(f, g) && KeyLe(g, h) ==> KeyLe(f, h)
    ensures KeyLe(f, g) && KeyLe(g, f) ==> CmpKey(f) == CmpKey(g)
  {
    LexLessIrreflexive(f.fieldLabel);
    KeyLessAsym(f, g);
    if KeyLe(f, g) && KeyLe(g, h) {
      KeyLeTrans(f, g, h);
    }
    if KeyLe(f, g) && KeyLe(g, f) {
      KeyLeAntisym(f, g);
    }
  }

  /** A field without a position sorts after every field placed before `i32::MAX`. */
  lemma MissingPositionSortsLast(f: ExtraField, g: ExtraField)
    requires f.position.None? && g.position.Some? && g.position.value < I32_MAX
    ensures KeyLess(g, f) && !KeyLess(f, g)
  {
  }

  // ---------------------------------------------------------------------------
  // Sorting (`slice::sort_by` on `cmp_key`: stable)

  predicate Sorted(s: seq<ExtraField>)
  {
    forall i, j :: 0 <= i < j < |s| ==> KeyLe(s[i], s[j])
  }

  /** Put `x` after every element whose key is not greater than its own. */
  function InsertField(x: ExtraField, s: seq<ExtraField>): seq<ExtraField>
  {
    if s == [] then [x]
    else if KeyLess(x, s[|s| - 1]) then InsertField(x, s[..|s| - 1]) + [s[|s| - 1]]
    else s + [x]
  }

  function SortFields(s: seq<ExtraField>): seq<ExtraField>
  {
    if s == [] then [] else InsertField(s[|s| - 1], SortFields(s[..|s| - 1]))
  }

  lemma {:induction false} InsertFieldPerm(x: ExtraField, s: seq<ExtraField>)
    ensures multiset(InsertField(x, s)) == multiset(s) + multiset{x}
  {
    if s != [] && KeyLess(x, s[|s| - 1]) {
      InsertFieldPerm(x, s[..|s| - 1]);
      assert s == s[..|s| - 1] + [s[|s| - 1]];
    }
  }

  lemma SortedSnoc(r: seq<ExtraField>, y: ExtraField)
    requires Sorted(r) && forall i :: 0 <= i < |r| ==> KeyLe(r[i], y)
    ensures Sorted(r + [y])
  {
  }

  lemma {:induction false} InsertFieldSorted(x: ExtraField, s: seq<ExtraField>)
    requires Sorted(s)
    ensures Sorted(InsertField(x, s))
  {
    if s != [] {
      var front, last := s[..|s| - 1], s[|s| - 1];
      if KeyLess(x, last) {
        InsertFieldSorted(x, front);
        InsertFieldPerm(x, front);
        var r := InsertField(x, front);
        forall i | 0 <= i < |r| ensures KeyLe(r[i], last) {
          assert r[i] in multiset(r);
          if r[i] == x {
            KeyLessAsym(x, last);
          } else {
            assert r[i] in multiset(front);
            var k :| 0 <= k < |front| && front[k] == r[i];
            assert s[k] == r[i];
          }
        }
        SortedSnoc(r, last);
      } else {
        forall i | 0 <= i < |s| ensures KeyLe(s[i], x) {
          if i < |s| - 1 {
            KeyLeTrans(s[i], last, x);
          }
        }
        SortedSnoc(s, x);
      }
    }
  }

  /** The sort is ordered by `cmp_key` and is a permutation of its input. */
  lemma {:induction false} SortFieldsSorted(s: seq<ExtraField>)
    ensures Sorted(SortFields(s))
    ensures multiset(SortFields(s)) == multiset(s)
  {
    if s != [] {
      SortFieldsSorted(s[..|s| - 1]);
      InsertFieldSorted(s[|s| - 1], SortFields(s[..|s| - 1]));
      InsertFieldPerm(s[|s| - 1], SortFields(s[..|s| - 1]));
      assert s == s[..|s| - 1] + [s[|s| - 1]];
    }
  }

  predicate DistinctLabels(s: seq<ExtraField>)
  {
    forall i, j :: 0 <= i < j < |s| ==> s[i].fieldLabel != s[j].fieldLabel
  }

  lemma CountAtLeastTwo<T>(s: seq<T>, i: nat, j: nat)
    requires i < j < |s| && s[i] == s[j]
    ensures multiset(s)[s[i]] >= 2
  {
    assert s == s[..i] + [s[i]] + s[i + 1..j] + [s[j]] + s[j + 1..];
  }

  lemma OtherCopy<T>(s: seq<T>, x: nat)
    requires x < |s| && multiset(s)[s[x]] >= 2
    ensures exists z :: 0 <= z < |s| && z != x && s[z] == s[x]
  {
    assert s == s[..x] + [s[x]] + s[x + 1..];
    assert multiset(s) == multiset(s[..x]) + multiset{s[x]} + multiset(s[x + 1..]);
    if s[x] in multiset(s[..x]) {
      var z :| 0 <= z < x && s[..x][z] == s[x];
      assert s[z] == s[x];
    } else {
      assert s[x] in multiset(s[x + 1..]);
      var z :| 0 <= z < |s| - x - 1 && s[x + 1..][z] == s[x];
      assert s[x + 1 + z] == s[x];
    }
  }

  /** Distinct labels survive any reordering of the fields. */
  lemma DistinctLabelsPerm(p: seq<ExtraField>, a: seq<ExtraField>)
    requires multiset(p) == multiset(a) && DistinctLabels(p)
    ensures DistinctLabels(a)
  {
    forall i, j | 0 <= i < j < |a| ensures a[i].fieldLabel != a[j].fieldLabel {
      assert a[i] in multiset(p) && a[j] in multiset(p);
      var x :| 0 <= x < |p| && p[x] == a[i];
      var y :| 0 <= y < |p| && p[y] == a[j];
      if x == y {
        CountAtLeastTwo(a, i, j);
        OtherCopy(p, x);
      }
    }
  }

  lemma SortedTail(s: seq<ExtraField>)
    requires s != [] && Sorted(s)
    ensures Sorted(s[1..])
    ensures DistinctLabels(s) ==> DistinctLabels(s[1..])
  {
    forall k, m | 0 <= k < m < |s| - 1 ensures KeyLe(s[1..][k], s[1..][m]) {
      assert s[1..][k] == s[k + 1] && s[1..][m] == s[m + 1];
    }
    if DistinctLabels(s) {
      forall k, m | 0 <= k < m < |s| - 1 ensures s[1..][k].fieldLabel != s[1..][m].fieldLabel {
        assert s[1..][k] == s[k + 1] && s[1..][m] == s[m + 1];
      }
    }
  }

  /** Two sorted permutations of fields with distinct labels start with the same field. */
  lemma SortedHeadsEqual(a: seq<ExtraField>, b: seq<ExtraField>)
    requires a != [] && b != []
    requires Sorted(a) && Sorted(b) && multiset(a) == multiset(b) && DistinctLabels(a)
    ensures a[0] == b[0]
  {
    assert a[0] in multiset(b) && b[0] in multiset(a);
    var i :| 0 <= i < |b| && b[i] == a[0];
    var j :| 0 <= j < |a| && a[j] == b[0];
    LexLessIrreflexive(a[0].fieldLabel);
    assert KeyLe(b[0], b[i]) && KeyLe(a[0], a[j]);
    KeyLeAntisym(a[0], b[0]);
    assert a[0].fieldLabel == a[j].fieldLabel;
    assert j == 0;
  }

  /** Removing the same first field from two equal multisets leaves equal multisets. */
  lemma TailsPerm(a: seq<ExtraField>, b: seq<ExtraField>)
    requires a != [] && b != [] && a[0] == b[0] && multiset(a) == multiset(b)
    ensures multiset(a[1..]) == multiset(b[1..])
  {
    assert a == [a[0]] + a[1..];
    assert b == [b[0]] + b[1..];
    assert multiset(a) == multiset{a[0]} + multiset(a[1..]);
    assert multiset(b) == multiset{a[0]} + multiset(b[1..]);
    assert multiset(a[1..]) == multiset(a) - multiset{a[0]};
  }

  /**
   * With distinct labels there is only one order by `cmp_key`: two sorted
   * permutations of the same fields are equal.
   */
  lemma {:induction false} SortedPermutationUnique(a: seq<ExtraField>, b: seq<ExtraField>)
    requires Sorted(a) && Sorted(b) && multiset(a) == multiset(b) && DistinctLabels(a)
    ensures a == b
    decreases |a|
  {
    assert |a| == |multiset(a)| == |b|;
    if a != [] {
      SortedHeadsEqual(a, b);
      TailsPerm(a, b);
      SortedTail(a);
      SortedTail(b);
      SortedPermutationUnique(a[1..], b[1..]);
      assert a == [a[0]] + a[1..] && b == [b[0]] + b[1..];
    }
  }

  /** The sorted result does not depend on the order the fields came in when their labels differ. */
  lemma SortIgnoresInputOrder(p: seq<ExtraField>, q: seq<ExtraField>)
    requires multiset(p) == multiset(q) && DistinctLabels(p)
    ensures SortFields(p) == SortFields(q)
  {
    SortFieldsSorted(p);
    SortFieldsSorted(q);
    DistinctLabelsPerm(p, SortFields(p));
    SortedPermutationUnique(SortFields(p), SortFields(q));
  }

  // ---------------------------------------------------------------------------
  // Validation

  /** The parsers of foreign libraries that validation consults. */
  datatype Parsers = Parsers(
    isHttpUrl: string -> bool,   // `Url::parse` succeeds with scheme http or https and a host
    isF64: string -> bool,       // `str::parse::<f64>` succeeds
    isEmail: string -> bool)     // `EmailAddress::parse_with_options` succeeds

  /** The reason codes `validate_field` returns. */
  datatype Reason = Required | InvalidUrl | InvalidNumber | InvalidInteger | InvalidEmail
  {
    /** The code as the program spells it. */
    function Code(): (s: string)
    {
      match this
      case Required => "required"
      case InvalidUrl => "invalid_url"
      case InvalidNumber => "invalid_number"
      case InvalidInteger => "invalid_integer"
      case InvalidEmail => "invalid_email"
    }
  }

  /** The kinds `validate_field` has no value rule for. */
  predicate IsUncheckedKind(k: Kind)
  {
    k.Text? || k.Select? || k.Checkbox? || k.Date? || k.DateTimeLocal? || k.Time? || k.Radio? || k.Unknown?
  }

  /** The kind-specific rule of `validate_field`, applied to a non-blank trimmed value. */
  function KindRule(p: Parsers, k: Kind, value: string): (r: Option<Reason>)
  {
    match k
    case Url => if p.isHttpUrl(value) then None else Some(InvalidUrl)
    case Number => if p.isF64(value) then None else Some(InvalidNumber)
    case Items => if ParseI64(value).Some? then None else Some(InvalidInteger)
    case Experiments => if ParseI64(value).Some? then None else Some(InvalidInteger)
    case Users => if ParseI64(value).Some? then None else Some(InvalidInteger)
    case Email => if p.isEmail(value) then None else Some(InvalidEmail)
    case _ => None
  }

  /**
   * `validate_field`: the trimmed value is checked for presence first, a
   * blank value is otherwise valid, and a non-blank one goes to the rule of
   * the field's kind.
   */
  function ValidateField(p: Parsers, f: ExtraField): (r: Option<Reason>)
  {
    var value := Trim(f.value);
    if f.required && value == [] then Some(Required)
    else if value == [] then None
    else KindRule(p, f.kind, value)
  }

  /** The two stages of `validate_field`: presence of a blank value, then the kind's rule. */
  lemma ValidateFieldStages(p: Parsers, f: ExtraField)
    ensures AllWhitespace(f.value) ==> ValidateField(p, f) == if f.required then Some(Required) else None
    ensures !AllWhitespace(f.value) ==> ValidateField(p, f) == KindRule(p, f.kind, Trim(f.value))
  {
    TrimEmptyIffBlank(f.value);
  }

  lemma KindRuleNeverRequired(p: Parsers, k: Kind, v: string)
    ensures KindRule(p, k, v) != Some(Required)
  {
  }

  lemma KindRuleUnchecked(p: Parsers, k: Kind, v: string)
    requires IsUncheckedKind(k)
    ensures KindRule(p, k, v) == None
  {
  }

  lemma KindRuleId(p: Parsers, k: Kind, v: string)
    requires IsIdKind(k)
    ensures KindRule(p, k, v) == if ParseI64(v).Some? then None else Some(InvalidInteger)
  {
  }

  /** A required field with a blank value fails as `"required"`, whatever its kind, and nothing else does. */
  lemma RequiredCheckedFirst(p: Parsers, f: ExtraField)
    ensures ValidateField(p, f) == Some(Required) <==> f.required && AllWhitespace(f.value)
  {
    ValidateFieldStages(p, f);
    KindRuleNeverRequired(p, f.kind, Trim(f.value));
  }

  /** An optional field with a blank value is valid for every kind. */
  lemma BlankOptionalValid(p: Parsers, f: ExtraField)
    requires !f.required && AllWhitespace(f.value)
    ensures ValidateField(p, f) == None
  {
    ValidateFieldStages(p, f);
  }

  /** Kinds without a value rule fail only the required check. */
  lemma UncheckedKindsValid(p: Parsers, f: ExtraField)
    requires IsUncheckedKind(f.kind)
    ensures ValidateField(p, f).Some? <==> f.required && AllWhitespace(f.value)
  {
    ValidateFieldStages(p, f);
    KindRuleUnchecked(p, f.kind, Trim(f.value));
  }

  /** Id kinds fail as `"invalid_integer"` exactly when the non-blank trimmed value is not an `i64`. */
  lemma IdKindsNeedInteger(p: Parsers, f: ExtraField)
    requires IsIdKind(f.kind)
    ensures ValidateField(p, f) == Some(InvalidInteger)
      <==> !AllWhitespace(f.value) && ParseI64(Trim(f.value)).None?
    ensures ValidateField(p, f) == None
      <==> (AllWhitespace(f.value) && !f.required) || (!AllWhitespace(f.value) && ParseI64(Trim(f.value)).Some?)
  {
    ValidateFieldStages(p, f);
    KindRuleId(p, f.kind, Trim(f.value));
  }

  /** Url, Number and Email values are judged by their parser once trimmed and non-blank. */
  lemma ParsedKindsUseParser(p: Parsers, f: ExtraField)
    requires !AllWhitespace(f.value)
    ensures f.kind == Url ==> (ValidateField(p, f) == None <==> p.isHttpUrl(Trim(f.value)))
    ensures f.kind == Number ==> (ValidateField(p, f) == None <==> p.isF64(Trim(f.value)))
    ensures f.kind == Email ==> (ValidateField(p, f) == None <==> p.isEmail(Trim(f.value)))
    ensures ValidateField(p, f) != Some(Required)
  {
    ValidateFieldStages(p, f);
    KindRuleNeverRequired(p, f.kind, Trim(f.value));
  }

  // ---------------------------------------------------------------------------
  // Import

  /** `value_to_string`: strings as they are, numbers in decimal, booleans as `"on"` or `""`, anything else as JSON. */
  function ValueToString(v: Option<Json>): (r: Option<string>)
    ensures r.None? <==> v.None?
  {
    match v
    case None => None
    case Some(Str(s)) => Some(s)
    case Some(Num(n)) => Some(NumberText(n))
    case Some(Bool(b)) => Some(if b then "on" else "")
    case Some(other) => Some(Serialize(other))
  }

  /** Which text each kind of JSON value gives. */
  lemma ValueToStringSpec(v: Option<Json>)
    ensures v == Some(Bool(true)) ==> ValueToString(v) == Some("on")
    ensures v == Some(Bool(false)) ==> ValueToString(v) == Some("")
    ensures v.Some? && v.value.Str? ==> ValueToString(v) == Some(v.value.s)
    ensures v.Some? && v.value.Num? && v.value.n.Int? ==> ValueToString(v) == Some(IntToString(v.value.n.i))
    ensures v.Some? && (v.value.Null? || v.value.Arr? || v.value.Obj?) ==> ValueToString(v) == Some(Serialize(v.value))
  {
  }

  /** `filter_map(value_to_string)` over a JSON array: nothing is dropped. */
  function Strings(vs: seq<Json>): (r: seq<string>)
    ensures |r| == |vs|
  {
    seq(|vs|, i requires 0 <= i < |vs| => ValueToString(Some(vs[i])).value)
  }

  /** Element `i` of the list is the text of element `i` of the array. */
  lemma StringsSpec(vs: seq<Json>)
    ensures forall i :: 0 <= i < |vs| ==> Some(Strings(vs)[i]) == ValueToString(Some(vs[i]))
  {
  }

  /** `ExtraFieldRaw`: one entry of `extra_fields` as deserialized, with its defaults filled in. */
  datatype FieldRaw = FieldRaw(
    kind: string,
    options: seq<Json>,
    unit: Option<string>,
    units: seq<Json>,
    value: Option<Json>,
    position: Option<I32>,
    required: bool,
    description: Option<string>,
    allowMultiValues: bool,
    blankValueOnDuplicate: bool,
    readonly: bool,
    groupId: Option<Json>)

  /** `ExtraFieldGroupRaw`. */
  datatype GroupRaw = GroupRaw(id: Json, name: string)

  /** `ExtraFieldsEnvelope`: the entries of the `extra_fields` map and the group list. */
  datatype Envelope = Envelope(entries: seq<(string, FieldRaw)>, groups: seq<GroupRaw>)

  const ParseError: string := "Failed to parse eLabFTW metadata JSON"

  /** The member `key` of a struct: absent, present once, or a duplicate-field error. */
  function Member(members: seq<(string, Json)>, key: string): (r: Result<Option<Json>, string>)
    ensures r.Ok? ==> r.value == Lookup(members, key)
  {
    if Occurrences(members, key) > 1 then Err(ParseError) else Ok(Lookup(members, key))
  }

  /** A string field that must be present. */
  function DecodeString(o: Option<Json>): Result<string, string>
  {
    match o
    case Some(Str(s)) => Ok(s)
    case _ => Err(ParseError)
  }

  /** `#[serde(default)] Option<String>`: absent or `null` is `None`. */
  function DecodeOptString(o: Option<Json>): Result<Option<string>, string>
  {
    match o
    case None => Ok(None)
    case Some(Null) => Ok(None)
    case Some(Str(s)) => Ok(Some(s))
    case _ => Err(ParseError)
  }

  /** `#[serde(default)] bool`: absent is `false`. */
  function DecodeBool(o: Option<Json>): Result<bool, string>
  {
    match o
    case None => Ok(false)
    case Some(Bool(b)) => Ok(b)
    case _ => Err(ParseError)
  }

  /** `#[serde(default)] Vec<Value>`: absent is empty. */
  function DecodeArray(o: Option<Json>): Result<seq<Json>, string>
  {
    match o
    case None => Ok([])
    case Some(Arr(xs)) => Ok(xs)
    case _ => Err(ParseError)
  }

  /** `#[serde(default)] Option<Value>`: absent or `null` is `None`. */
  function DecodeOptValue(o: Option<Json>): Option<Json>
  {
    match o
    case None => None
    case Some(Null) => None
    case Some(v) => Some(v)
  }

  /** `#[serde(default)] Option<i32>`: an integer inside the `i32` range. */
  function DecodeOptI32(o: Option<Json>): Result<Option<I32>, string>
  {
    match o
    case None => Ok(None)
    case Some(Null) => Ok(None)
    case Some(Num(Int(i))) => if I32_MIN <= i <= I32_MAX then Ok(Some(i)) else Err(ParseError)
    case _ => Err(ParseError)
  }

  function DecodeFieldRaw(j: Json): Result<FieldRaw, string>
  {
    if !j.Obj? then Err(ParseError)
    else
      var m := j.members;
      var kind :- Member(m, "type");
      var kind :- DecodeString(kind);
      var options :- Member(m, "options");
      var options :- DecodeArray(options);
      var unit :- Member(m, "unit");
      var unit :- DecodeOptString(unit);
      var units :- Member(m, "units");
      var units :- DecodeArray(units);
      var value :- Member(m, "value");
      var position :- Member(m, "position");
      var position :- DecodeOptI32(position);
      var required :- Member(m, "required");
      var required :- DecodeBool(required);
      var description :- Member(m, "description");
      var description :- DecodeOptString(description);
      var allowMulti :- Member(m, "allow_multi_values");
      var allowMulti :- DecodeBool(allowMulti);
      var blankOnDup :- Member(m, "blank_value_on_duplicate");
      var blankOnDup :- DecodeBool(blankOnDup);
      var readonly :- Member(m, "readonly");
      var readonly :- DecodeBool(readonly);
      var groupId :- Member(m, "group_id");
      Ok(FieldRaw(kind, options, unit, units, DecodeOptValue(value), position, required, description,
        allowMulti, blankOnDup, readonly, DecodeOptValue(groupId)))
  }

  function DecodeGroupRaw(j: Json): Result<GroupRaw, string>
  {
    if !j.Obj? then Err(ParseError)
    else
      var id :- Member(j.members, "id");
      var name :- Member(j.members, "name");
      var name :- DecodeString(name);
      if id.None? then Err(ParseError) else Ok(GroupRaw(id.value, name))
  }

  function DecodeGroups(xs: seq<Json>): Result<seq<GroupRaw>, string>
  {
    if xs == [] then Ok([])
    else
      var front :- DecodeGroups(xs[..|xs| - 1]);
      var g :- DecodeGroupRaw(xs[|xs| - 1]);
      Ok(front + [g])
  }

  /** `#[serde(default)] Option<ElabFtWBlock>`: its `extra_fields_groups`, empty when absent. */
  function DecodeBlock(o: Option<Json>): Result<seq<GroupRaw>, string>
  {
    match o
    case None => Ok([])
    case Some(Null) => Ok([])
    case Some(Obj(m)) =>
      var gs :- Member(m, "extra_fields_groups");
      var gs :- DecodeArray(gs);
      DecodeGroups(gs)
    case _ => Err(ParseError)
  }

  /** `BTreeMap` deserialization: every entry must decode; a later key replaces an earlier one. */
  function DecodeEntries(members: seq<(string, Json)>): (r: Result<seq<(string, FieldRaw)>, string>)
    ensures r.Ok? ==> forall i, j :: 0 <= i < j < |r.value| ==> r.value[i].0 != r.value[j].0
  {
    if members == [] then Ok([])
    else
      var front :- DecodeEntries(members[..|members| - 1]);
      var (key, v) := members[|members| - 1];
      var raw :- DecodeFieldRaw(v);
      Ok(WithoutKey(front, key) + [(key, raw)])
  }

  function WithoutKey(entries: seq<(string, FieldRaw)>, key: string): (r: seq<(string, FieldRaw)>)
    ensures forall i :: 0 <= i < |r| ==> r[i].0 != key && r[i] in entries
    ensures (forall i, j :: 0 <= i < j < |entries| ==> entries[i].0 != entries[j].0)
      ==> forall i, j :: 0 <= i < j < |r| ==> r[i].0 != r[j].0
  {
    if entries == [] then []
    else
      var rest := WithoutKey(entries[1..], key);
      if entries[0].0 == key then rest
      else
        assert forall i :: 0 <= i < |rest| ==> rest[i] in entries[1..];
        [entries[0]] + rest
  }

  /** `serde_json::from_str::<ExtraFieldsEnvelope>` on an already parsed document. */
  function DecodeEnvelope(j: Json): (r: Result<Envelope, string>)
    ensures r.Ok? ==> forall a, b :: 0 <= a < b < |r.value.entries| ==> r.value.entries[a].0 != r.value.entries[b].0
  {
    if !j.Obj? then Err(ParseError)
    else
      var fields :- Member(j.members, "extra_fields");
      if fields.None? || !fields.value.Obj? then Err(ParseError)
      else
        var entries :- DecodeEntries(fields.value.members);
        var block :- Member(j.members, "elabftw");
        var groups :- DecodeBlock(block);
        Ok(Envelope(entries, groups))
  }

  /** A blank text becomes `None` (`filter(|u| !u.trim().is_empty())`). */
  function NonBlank(o: Option<string>): (r: Option<string>)
    ensures r.Some? ==> r == o
  {
    match o
    case None => None
    case Some(s) => if Trim(s) == [] then None else o
  }

  /** Only a text that is not all whitespace is kept. */
  lemma NonBlankSpec(o: Option<string>)
    ensures NonBlank(o).Some? <==> o.Some? && !AllWhitespace(o.value)
  {
    if o.Some? {
      TrimEmptyIffBlank(o.value);
    }
  }

  /** The field's `group_id`: a JSON integer cut to 32 bits, or a string holding an `i32`. */
  function GroupIdOf(v: Option<Json>): (r: Option<I32>)
  {
    match v
    case Some(Num(n)) => (match AsI64(n) case None => None case Some(x) => Some(WrapI32(x)))
    case Some(Str(s)) => ParseI32(s)
    case _ => None
  }

  /**
   * A group id is read from an `i64` integer cut to 32 bits or from a string
   * holding an `i32`; any other value gives no group.
   */
  lemma GroupIdOfSpec(v: Option<Json>)
    ensures v.Some? && v.value.Str? ==> (GroupIdOf(v).Some? <==> ParseI32(v.value.s).Some?)
    ensures v.Some? && v.value.Str? && GroupIdOf(v).Some? ==> GroupIdOf(v).value == ParseI32(v.value.s).value
    ensures v.Some? && v.value.Num? && AsI64(v.value.n).Some? ==> GroupIdOf(v) == Some(WrapI32(AsI64(v.value.n).value))
    ensures v.Some? && v.value.Num? && AsI64(v.value.n).None? ==> GroupIdOf(v).None?
    ensures (v.None? || !(v.value.Str? || v.value.Num?)) ==> GroupIdOf(v).None?
  {
  }

  /**
   * The `(value, value_multi)` pair of an imported field: an array value is
   * kept as the list of its elements as text and joined by `", "`; any other
   * value is kept as text, and an absent one as `""`.
   */
  function FieldValue(v: Option<Json>): (r: (string, seq<string>))
  {
    match v
    case Some(Arr(xs)) => (Join(Strings(xs), ", "), Strings(xs))
    case other => (ValueToString(other).UnwrapOr(""), [])
  }

  /**
   * One entry of the map turned into a field: the kind from the trimmed
   * token, every option and unit as text, blank unit and description
   * dropped, the rest copied.
   */
  function ConvertField(entry: (string, FieldRaw)): (f: ExtraField)
    ensures f.fieldLabel == entry.0
  {
    var (fieldLabel, raw) := entry;
    var (value, multi) := FieldValue(raw.value);
    ExtraField(fieldLabel, FromStr(Trim(raw.kind)), value, multi, Strings(raw.options), NonBlank(raw.unit),
      Strings(raw.units), raw.position, raw.required, NonBlank(raw.description), raw.allowMultiValues,
      raw.blankValueOnDuplicate, GroupIdOf(raw.groupId), raw.readonly)
  }

  /**
   * What an imported field holds: the map key as label, the kind of the
   * trimmed token, the value pair of `FieldValue`, options and units as
   * text, and no blank unit or description.
   */
  lemma ConvertFieldSpec(fieldLabel: string, raw: FieldRaw)
    ensures var f := ConvertField((fieldLabel, raw));
      && f.kind == FromStr(Trim(raw.kind)) && AsStr(f.kind) == Trim(raw.kind)
      && (raw.value.Some? && raw.value.value.Arr? ==>
            f.valueMulti == Strings(raw.value.value.items) && f.value == Join(f.valueMulti, ", "))
      && (!(raw.value.Some? && raw.value.value.Arr?) ==>
            f.valueMulti == [] && f.value == ValueToString(raw.value).UnwrapOr(""))
      && f.options == Strings(raw.options) && f.units == Strings(raw.units)
      && f.groupId == GroupIdOf(raw.groupId)
      && f.position == raw.position && f.required == raw.required && f.readonly == raw.readonly
      && (f.unit.Some? ==> !AllWhitespace(f.unit.value) && raw.unit == f.unit)
      && (f.description.Some? ==> !AllWhitespace(f.description.value) && raw.description == f.description)
      && (raw.unit.Some? && !AllWhitespace(raw.unit.value) ==> f.unit == raw.unit)
      && (raw.description.Some? && !AllWhitespace(raw.description.value) ==> f.description == raw.description)
  {
    FromStrKnown(Trim(raw.kind));
    NonBlankSpec(raw.unit);
    NonBlankSpec(raw.description);
  }

  /** `f` applied to every element, in order. */
  function MapSeq<A, B>(f: A -> B, s: seq<A>): (r: seq<B>)
    ensures |r| == |s|
  {
    if s == [] then [] else MapSeq(f, s[..|s| - 1]) + [f(s[|s| - 1])]
  }

  lemma MapSeqSnoc<A, B>(f: A -> B, s: seq<A>, i: nat)
    requires i < |s|
    ensures MapSeq(f, s[..i + 1]) == MapSeq(f, s[..i]) + [f(s[i])]
  {
    assert s[..i + 1][..i] == s[..i];
  }

  lemma {:induction false} MapSeqAt<A, B>(f: A -> B, s: seq<A>, i: nat)
    requires i < |s|
    ensures MapSeq(f, s)[i] == f(s[i])
  {
    if i < |s| - 1 {
      MapSeqAt(f, s[..|s| - 1], i);
    }
  }

  /** The fields of the entries, in entry order. */
  function ConvertAll(entries: seq<(string, FieldRaw)>): (r: seq<ExtraField>)
    ensures |r| == |entries|
  {
    MapSeq(ConvertField, entries)
  }

  /** Field `i` is entry `i` converted, so it carries that entry's key as its label. */
  lemma ConvertAllAt(entries: seq<(string, FieldRaw)>, i: nat)
    requires i < |entries|
    ensures ConvertAll(entries)[i] == ConvertField(entries[i])
    ensures ConvertAll(entries)[i].fieldLabel == entries[i].0
  {
    MapSeqAt(ConvertField, entries, i);
  }

  /** Each field carries its entry's key as its label. */
  lemma ConvertAllLabels(entries: seq<(string, FieldRaw)>)
    ensures forall i :: 0 <= i < |entries| ==> ConvertAll(entries)[i].fieldLabel == entries[i].0
  {
    forall i | 0 <= i < |entries| ensures ConvertAll(entries)[i].fieldLabel == entries[i].0 {
      ConvertAllAt(entries, i);
    }
  }

  /** Entries with distinct keys give fields with distinct labels. */
  lemma ConvertedLabelsDistinct(entries: seq<(string, FieldRaw)>)
    requires forall i, j :: 0 <= i < j < |entries| ==> entries[i].0 != entries[j].0
    ensures DistinctLabels(ConvertAll(entries))
  {
    ConvertAllLabels(entries);
  }

  /** The group built from source entry `idx`, if its id is a JSON integer or a string holding an `i32`. */
  function GroupAt(gs: seq<GroupRaw>, idx: nat): (r: Option<ExtraFieldGroup>)
    requires idx < |gs|
    ensures r.Some? <==> (gs[idx].id.Num? && AsI64(gs[idx].id.n).Some?) || (gs[idx].id.Str? && ParseI32(gs[idx].id.s).Some?)
    ensures r.Some? ==> r.value.name == gs[idx].name && r.value.position == WrapI32(idx)
    ensures r.Some? && idx <= I32_MAX ==> r.value.position == idx
  {
    var g := gs[idx];
    match g.id
    case Num(n) => (match AsI64(n) case None => None case Some(v) => Some(ExtraFieldGroup(WrapI32(v), g.name, WrapI32(idx))))
    case Str(s) => (match ParseI32(s) case None => None case Some(v) => Some(ExtraFieldGroup(v, g.name, WrapI32(idx))))
    case _ => None
  }

  /** The groups, in source order, of the first `n` source entries. */
  function GroupsUpTo(gs: seq<GroupRaw>, n: nat): seq<ExtraFieldGroup>
    requires n <= |gs|
  {
    if n == 0 then []
    else GroupsUpTo(gs, n - 1) + (match GroupAt(gs, n - 1) case None => [] case Some(g) => [g])
  }

  /** `parse_elabftw_extra_fields` as a value. */
  function ParseSpec(j: Json): Result<ExtraFieldsImport, string>
  {
    match DecodeEnvelope(j)
    case Err(e) => Err(e)
    case Ok(env) => Ok(ExtraFieldsImport(SortFields(ConvertAll(env.entries)), GroupsUpTo(env.groups, |env.groups|)))
  }

  /** The loop over the map's entries, pushing one converted field per entry. */
  method ConvertEntries(entries: seq<(string, FieldRaw)>) returns (fields: seq<ExtraField>)
    ensures fields == ConvertAll(entries)
  {
    fields := [];
    var i := 0;
    while i < |entries|
      invariant 0 <= i <= |entries|
      invariant fields == ConvertAll(entries[..i])
    {
      MapSeqSnoc(ConvertField, entries, i);
      fields := fields + [ConvertField(entries[i])];
      i := i + 1;
    }
    assert entries[..i] == entries;
  }

  /** The pass over the group list, keeping the groups whose id converts, numbered by source index. */
  method CollectGroups(gs: seq<GroupRaw>) returns (groups: seq<ExtraFieldGroup>)
    ensures groups == GroupsUpTo(gs, |gs|)
  {
    groups := [];
    var idx := 0;
    while idx < |gs|
      invariant 0 <= idx <= |gs|
      invariant groups == GroupsUpTo(gs, idx)
    {
      var g := GroupAt(gs, idx);
      if g.Some? {
        groups := groups + [g.value];
      }
      idx := idx + 1;
    }
  }

  /**
   * `parse_elabftw_extra_fields`: converts each map entry, sorts the fields
   * by `cmp_key`, then keeps the groups whose id converts, numbered by their
   * place in the source list.
   */
  method ParseElabftwExtraFields(j: Json) returns (r: Result<ExtraFieldsImport, string>)
    ensures r == ParseSpec(j)
  {
    var env := DecodeEnvelope(j);
    if env.Err? {
      return Err(env.error);
    }
    var fields := ConvertEntries(env.value.entries);
    fields := SortFields(fields);
    var groups := CollectGroups(env.value.groups);
    return Ok(ExtraFieldsImport(fields, groups));
  }

  /** The imported fields are ordered by `cmp_key`; they are the map's entries converted, none lost or added. */
  lemma ImportedFieldsSorted(j: Json)
    requires ParseSpec(j).Ok?
    ensures var env := DecodeEnvelope(j).value; var fs := ParseSpec(j).value.fields;
      Sorted(fs) && multiset(fs) == multiset(ConvertAll(env.entries))
  {
    SortFieldsSorted(ConvertAll(DecodeEnvelope(j).value.entries));
  }

  /** The imported labels are distinct, since they are the keys of a map. */
  lemma ImportedLabelsDistinct(j: Json)
    requires ParseSpec(j).Ok?
    ensures DistinctLabels(ParseSpec(j).value.fields)
  {
    var entries := DecodeEnvelope(j).value.entries;
    assert ParseSpec(j).value.fields == SortFields(ConvertAll(entries));
    SortedConvertedDistinct(entries);
  }

  lemma SortedConvertedDistinct(entries: seq<(string, FieldRaw)>)
    requires forall i, j :: 0 <= i < j < |entries| ==> entries[i].0 != entries[j].0
    ensures DistinctLabels(SortFields(ConvertAll(entries)))
  {
    var c := ConvertAll(entries);
    ConvertedLabelsDistinct(entries);
    SortFieldsSorted(c);
    DistinctLabelsPerm(c, SortFields(c));
  }

  /** Every imported group is the group built from the source entry at its position. */
  lemma {:induction false} GroupsFromSource(gs: seq<GroupRaw>, n: nat)
    requires n <= |gs| <= I32_MAX
    ensures forall k :: 0 <= k < |GroupsUpTo(gs, n)| ==>
      0 <= GroupsUpTo(gs, n)[k].position < n && GroupAt(gs, GroupsUpTo(gs, n)[k].position) == Some(GroupsUpTo(gs, n)[k])
  {
    if n > 0 {
      GroupsFromSource(gs, n - 1);
      var prev := GroupsUpTo(gs, n - 1);
      var g := GroupAt(gs, n - 1);
      if g.Some? {
        var out := prev + [g.value];
        assert GroupsUpTo(gs, n) == out;
        forall k | 0 <= k < |out| ensures 0 <= out[k].position < n && GroupAt(gs, out[k].position) == Some(out[k]) {
          if k < |prev| {
            assert out[k] == prev[k];
            assert 0 <= prev[k].position < n - 1;
            assert GroupAt(gs, prev[k].position) == Some(prev[k]);
          } else {
            assert out[k] == g.value;
            assert g.value.position == n - 1;
            assert GroupAt(gs, n - 1) == Some(g.value);
          }
        }
      } else {
        assert GroupsUpTo(gs, n) == prev;
      }
    }
  }

  /** The imported groups keep the order of the source list. */
  lemma {:induction false} GroupsInSourceOrder(gs: seq<GroupRaw>, n: nat)
    requires n <= |gs| <= I32_MAX
    ensures forall k, m :: 0 <= k < m < |GroupsUpTo(gs, n)| ==> GroupsUpTo(gs, n)[k].position < GroupsUpTo(gs, n)[m].position
  {
    if n > 0 {
      GroupsInSourceOrder(gs, n - 1);
      GroupsFromSource(gs, n - 1);
      var prev := GroupsUpTo(gs, n - 1);
      var g := GroupAt(gs, n - 1);
      if g.Some? {
        var out := prev + [g.value];
        assert GroupsUpTo(gs, n) == out;
        assert g.value.position == n - 1;
        forall k, m | 0 <= k < m < |out| ensures out[k].position < out[m].position {
          if m == |prev| {
            assert out[k] == prev[k];
          } else {
            assert out[k] == prev[k] && out[m] == prev[m];
          }
        }
      }
    }
  }

  /** Every source entry whose id converts is imported. */
  lemma {:induction false} GroupsComplete(gs: seq<GroupRaw>, n: nat)
    requires n <= |gs|
    ensures forall idx :: 0 <= idx < n && GroupAt(gs, idx).Some? ==> GroupAt(gs, idx).value in GroupsUpTo(gs, n)
  {
    if n > 0 {
      GroupsComplete(gs, n - 1);
      var prev := GroupsUpTo(gs, n - 1);
      var g := GroupAt(gs, n - 1);
      if g.Some? {
        var out := prev + [g.value];
        assert GroupsUpTo(gs, n) == out;
        forall idx | 0 <= idx < n && GroupAt(gs, idx).Some? ensures GroupAt(gs, idx).value in out {
          if idx < n - 1 {
            var x := GroupAt(gs, idx).value;
            assert x in prev;
            var k :| 0 <= k < |prev| && prev[k] == x;
            assert out[k] == x;
          } else {
            assert out[|prev|] == g.value;
          }
        }
      } else {
        assert GroupsUpTo(gs, n) == prev;
      }
    }
  }
}
