/**
 * The markdown editor: the text, the caret or selection reported by the text
 * widget, the toolbar's preferences, and the insertions the toolbar makes
 * (styles wrapped around the selection, headings, tables).  Text positions
 * are character indices, as the widget reports them.  `Step` is the reducer
 * as a value; the class `MarkdownModel` performs it on its fields.
 */
module MarkdownUi {
  import opened Wrappers
  import opened Text

  /** Rust's `u8`. */
  type U8 = x: int | 0 <= x < 256

  datatype CodeChoice = InlineCode | BlockCode
  datatype ListChoice = Unordered | Ordered
  datatype MathChoice = InlineMath | DisplayMath

  /** `StyleKind`: the toolbar's insertions. */
  datatype StyleKind =
    | Bold | Italic | Strikethrough | Underline | Link | Quote | Image | Rule
    | CodeInline | CodeBlock | ListUnordered | ListOrdered | MathInline | MathDisplay

  /** `CCursorRange`: the caret end (`primary`) and the anchor end (`secondary`) of a selection. */
  datatype CursorRange = CursorRange(primary: nat, secondary: nat)

  /** `CCursorRange::one(CCursor::new(p))`: a collapsed caret at `p`. */
  function Collapsed(p: nat): CursorRange
  {
    CursorRange(p, p)
  }

  /** `MarkdownMsg`. */
  datatype Msg =
    | SetText(text: string)
    | SetCursor(cursor: Option<CursorRange>)
    | ClearCursorOverride
    | SetHeadingLevel(level: U8)
    | InsertHeading(level: U8)
    | SetCodeChoice(code: CodeChoice)
    | SetListChoice(list: ListChoice)
    | SetMathChoice(math: MathChoice)
    | ApplyStyle(kind: StyleKind)
    | InsertTable(rows: U8, cols: U8)
    | SetTableRows(rows: U8)
    | SetTableCols(cols: U8)

  /** The fields of `MarkdownModel`. */
  datatype State = State(
    text: string,
    headingLevel: U8,
    cursor: Option<CursorRange>,
    cursorOverride: Option<CursorRange>,
    codeChoice: CodeChoice,
    listChoice: ListChoice,
    mathChoice: MathChoice,
    tableRows: U8,
    tableCols: U8)

  /** `MarkdownModel::default()`. */
  const Initial: State := State("", 1, None, None, InlineCode, Unordered, InlineMath, 2, 2)

  /** `Ord::clamp`. */
  function Clamp(v: int, lo: int, hi: int): (r: int)
    requires lo <= hi
    ensures lo <= r <= hi
    ensures lo <= v <= hi ==> r == v
  {
    if v < lo then lo else if v > hi then hi else v
  }

  /** `u8::max(1)`. */
  function AtLeastOne(v: U8): (r: U8)
    ensures 1 <= r && (v >= 1 ==> r == v)
  {
    if v < 1 then 1 else v
  }

  /** The bounds `update` keeps the toolbar preferences in. */
  predicate Valid(s: State)
  {
    1 <= s.headingLevel <= 6 && 1 <= s.tableRows <= 100 && 1 <= s.tableCols <= 20
  }

  // ---------------------------------------------------------------------------
  // Selection and positions

  /**
   * `char_to_byte`.  Text is modelled as a sequence of characters, so the
   * converted index is the character index itself, clamped to the end.
   */
  function CharToByte(text: string, i: nat): (r: nat)
    ensures r <= |text|
    ensures i <= |text| ==> r == i
    ensures i > |text| ==> r == |text|
  {
    if i == |text| then |text| else if i < |text| then i else |text|
  }

  /** `chars().skip(n)`. */
  function Skip(text: string, n: nat): (r: string)
  {
    if n >= |text| then [] else text[n..]
  }

  /** `take(n)`. */
  function Take(text: string, n: nat): (r: string)
  {
    if n >= |text| then text else text[..n]
  }

  function Min(a: nat, b: nat): nat { if a <= b then a else b }
  function Max(a: nat, b: nat): nat { if a <= b then b else a }

  /**
   * `selection`: the two ends of the selection in order and the characters
   * between them (clamped to the text); with no cursor, an empty selection at
   * the end of the text.
   */
  function Selection(s: State): (r: (nat, nat, string))
    ensures r.0 <= r.1
    ensures r.2 == s.text[CharToByte(s.text, r.0)..CharToByte(s.text, r.1)]
    ensures s.cursor.None? ==> r.0 == r.1 == |s.text|
    ensures s.cursor.Some? ==> ((r.0 == s.cursor.value.primary && r.1 == s.cursor.value.secondary)
                                || (r.0 == s.cursor.value.secondary && r.1 == s.cursor.value.primary))
  {
    var (a, b) := match s.cursor
      case Some(c) => (Min(c.primary, c.secondary), Max(c.primary, c.secondary))
      case None => (|s.text|, |s.text|);
    (a, b, if a < b then Take(Skip(s.text, a), b - a) else [])
  }

  // ---------------------------------------------------------------------------
  // Styles

  predicate EndsWithWhitespace(s: string)
  {
    s != [] && IsWhitespace(s[|s| - 1])
  }

  /**
   * The text `apply_style` puts in place of the selection: the prefix, the
   * body and the suffix; block insertions are closed by a line break and
   * opened by one when the text does not already end in one; inline
   * insertions at an empty caret right after a non-whitespace character get
   * a separating space.
   */
  function Insertion(text: string, startChar: nat, endChar: nat, selected: string,
                     prefix: string, body: string, suffix: string, ensureNewline: bool): string
  {
    var core := prefix + body + suffix;
    if ensureNewline then
      var closed := if EndsWith(core, "\n") then core else core + "\n";
      if !EndsWith(text, "\n") && text != [] then "\n" + closed else closed
    else if selected == [] && text != [] && startChar == endChar
            && !EndsWithWhitespace(text[..CharToByte(text, startChar)]) then
      " " + core
    else core
  }

  /** The selection is replaced by the insertion made of `body`, and the caret collapses after it. */
  function Replaced(s: State, prefix: string, body: string, suffix: string, ensureNewline: bool): State
  {
    var (startChar, endChar, selected) := Selection(s);
    var insertion := Insertion(s.text, startChar, endChar, selected, prefix, body, suffix, ensureNewline);
    var start := CharToByte(s.text, startChar);
    var end := CharToByte(s.text, endChar);
    var pos := startChar + |insertion|;
    s.(text := s.text[..start] + insertion + s.text[end..], cursor := Some(Collapsed(pos)),
       cursorOverride := Some(Collapsed(pos)))
  }

  /** What `apply_style` wraps: the selection, or the placeholder when nothing is selected. */
  function Body(selected: string, placeholder: string): string
  {
    if selected == [] then placeholder else selected
  }

  /** `apply_style`. */
  function StyleApplied(s: State, prefix: string, suffix: string, placeholder: string, ensureNewline: bool): State
  {
    Replaced(s, prefix, Body(Selection(s).2, placeholder), suffix, ensureNewline)
  }

  /** The arguments `apply_style_kind` passes to `apply_style`. */
  datatype Style = Style(prefix: string, suffix: string, placeholder: string, ensureNewline: bool)

  function StyleOf(kind: StyleKind): Style
  {
    match kind
    case Bold => Style("**", "**", "bold", false)
    case Italic => Style("_", "_", "italic", false)
    case Strikethrough => Style("~~", "~~", "text", false)
    case Underline => Style("<u>", "</u>", "text", false)
    case Link => Style("[", "](https://example.com)", "text", false)
    case Quote => Style("\n> ", "", "quote", true)
    case Image => Style("![", "](path/to/image.png)", "alt text", false)
    case Rule => Style("\n---\n", "", "", true)
    case CodeInline => Style("`", "`", "code", false)
    case CodeBlock => Style("```\n", "\n```", "code", true)
    case ListUnordered => Style("\n- ", "", "item", true)
    case ListOrdered => Style("\n1. ", "", "first", true)
    case MathInline => Style("$", "$", "a+b=c", true)
    case MathDisplay => Style("$$", "$$", "a+b=c", true)
  }

  /** `apply_style_kind`. */
  function StyleKindApplied(s: State, kind: StyleKind): State
  {
    var st := StyleOf(kind);
    StyleApplied(s, st.prefix, st.suffix, st.placeholder, st.ensureNewline)
  }

  // ---------------------------------------------------------------------------
  // Headings

  /** `str::trim_start_matches(c)`. */
  function TrimStartMatches(s: string, c: char): (r: string)
    ensures |r| <= |s| && r == s[|s| - |r|..]
    ensures r == [] || r[0] != c
  {
    if s != [] && s[0] == c then TrimStartMatches(s[1..], c) else s
  }

  /** The heading text made from a selection: trimmed, without leading `#`, or `"Title"`. */
  function HeadingContent(selected: string): string
  {
    var cleaned := TrimStart(TrimStartMatches(Trim(selected), '#'));
    if cleaned == [] then "Title" else cleaned
  }

  /**
   * `insert_heading` as written: the cleaned heading text is passed to
   * `apply_style` as the placeholder, which is only used when nothing is
   * selected; a non-empty selection is inserted as it is.
   */
  function HeadingInsertedAsWritten(s: State, level: U8): State
  {
    var l := Clamp(level, 1, 6);
    var s1 := s.(headingLevel := l);
    StyleApplied(s1, Repeat('#', l) + " ", "\n", HeadingContent(Selection(s1).2), true)
  }

  /**
   * `insert_heading` as intended: the level is clamped and kept, and the
   * selection is replaced by a heading line holding the cleaned text.
   */
  function HeadingInserted(s: State, level: U8): State
  {
    var l := Clamp(level, 1, 6);
    var s1 := s.(headingLevel := l);
    Replaced(s1, Repeat('#', l) + " ", HeadingContent(Selection(s1).2), "\n", true)
  }

  // ---------------------------------------------------------------------------
  // Tables

  function HeaderLabel(col: nat): string
  {
    "Column " + NatToString(col)
  }

  /** One leading space, the label, one trailing space. */
  function ColumnWidth(col: nat): nat
  {
    |HeaderLabel(col)| + 2
  }

  /** The spaces that fill a header cell after its label. */
  function HeaderPadding(col: nat): nat
  {
    PadTo(ColumnWidth(col), 1 + |HeaderLabel(col)|)
  }

  /** The spaces needed to bring `used` characters up to `width`, none when there is no room. */
  function PadTo(width: nat, used: nat): nat
  {
    if width > used then width - used else 0
  }

  function HeaderText(col: nat): string
  {
    " " + HeaderLabel(col) + Repeat(' ', HeaderPadding(col))
  }

  /** The widths of columns `1..cols`. */
  function Widths(cols: nat): (r: seq<nat>)
    ensures |r| == cols
  {
    if cols == 0 then [] else Widths(cols - 1) + [ColumnWidth(cols)]
  }

  /** The cells of the header line of a table with `cols` columns. */
  function HeaderTexts(cols: nat): (r: seq<string>)
    ensures |r| == cols
  {
    if cols == 0 then [] else HeaderTexts(cols - 1) + [HeaderText(cols)]
  }

  /** Cells filled with `fill` to the given widths. */
  function Filled(widths: seq<nat>, fill: char): (r: seq<string>)
    ensures |r| == |widths|
  {
    if widths == [] then [] else Filled(widths[..|widths| - 1], fill) + [Repeat(fill, widths[|widths| - 1])]
  }

  /** The cells of the separator line and of a body line. */
  function RuleTexts(cols: nat): (r: seq<string>)
    ensures |r| == cols
  {
    Filled(Widths(cols), '-')
  }

  function BlankTexts(cols: nat): (r: seq<string>)
    ensures |r| == cols
  {
    Filled(Widths(cols), ' ')
  }

  /** `n` copies of `x`. */
  function Copies(x: string, n: nat): (r: seq<string>)
    ensures |r| == n
  {
    if n == 0 then [] else Copies(x, n - 1) + [x]
  }

  lemma {:induction false} WidthsAt(cols: nat, k: nat)
    requires k < cols
    ensures Widths(cols)[k] == ColumnWidth(k + 1)
  {
    if k < cols - 1 {
      WidthsAt(cols - 1, k);
    }
  }

  lemma {:induction false} HeaderTextsAt(cols: nat, k: nat)
    requires k < cols
    ensures HeaderTexts(cols)[k] == HeaderText(k + 1)
  {
    if k < cols - 1 {
      HeaderTextsAt(cols - 1, k);
    }
  }

  lemma {:induction false} FilledAt(widths: seq<nat>, fill: char, k: nat)
    requires k < |widths|
    ensures Filled(widths, fill)[k] == Repeat(fill, widths[k])
  {
    if k < |widths| - 1 {
      FilledAt(widths[..|widths| - 1], fill, k);
    }
  }

  lemma {:induction false} CopiesAt(x: string, n: nat, k: nat)
    requires k < n
    ensures Copies(x, n)[k] == x
  {
    if k < n - 1 {
      CopiesAt(x, n - 1, k);
    }
  }

  /** A table line: every cell opened by `|`, and a closing `|`. */
  function Row(cells: seq<string>): string
  {
    Cells(cells) + "|"
  }

  /** Every cell opened by `|`. */
  function Cells(cells: seq<string>): string
  {
    if cells == [] then "" else Cells(cells[..|cells| - 1]) + "|" + cells[|cells| - 1]
  }

  /** Every line ended by a line break. */
  function Lines(lines: seq<string>): string
  {
    if lines == [] then "" else Lines(lines[..|lines| - 1]) + lines[|lines| - 1] + "\n"
  }

  /** The lines of `table_snippet(rows, cols)`: header, separator, and `max(rows, 1)` body rows. */
  function TableLines(rows: U8, cols: U8): seq<string>
  {
    var r := AtLeastOne(rows);
    var c := AtLeastOne(cols);
    [Row(HeaderTexts(c)), Row(RuleTexts(c))] + Copies(Row(BlankTexts(c)), r)
  }

  /** `table_snippet`: each line ends in a line break, and a blank line follows the table. */
  function TableSnippet(rows: U8, cols: U8): string
  {
    Lines(TableLines(rows, cols)) + "\n"
  }

  /** The insertion of `insert_table_at_cursor`: `block` goes after the selection and always starts a line. */
  function AddedAfterSelection(s: State, block: string): State
  {
    var endChar := Selection(s).1;
    var at := CharToByte(s.text, endChar);
    var insertion := BlockLead(s.text, at) + block;
    var pos := endChar + |insertion|;
    s.(text := s.text[..at] + insertion + s.text[at..], cursor := Some(Collapsed(pos)),
       cursorOverride := Some(Collapsed(pos)))
  }

  /** The line break put in front of a block unless it already starts a line. */
  function BlockLead(text: string, at: nat): string
    requires at <= |text|
  {
    if text != [] && (at == 0 || !EndsWith(text[..at], "\n")) then "\n" else ""
  }

  /** `insert_table_at_cursor`. */
  function TableInserted(s: State, rows: U8, cols: U8): State
  {
    AddedAfterSelection(s, TableSnippet(rows, cols))
  }

  // ---------------------------------------------------------------------------
  // The reducer

  /** `update` as a value. */
  function Step(s: State, msg: Msg): State
  {
    match msg
    case SetText(t) => s.(text := t)
    case SetCursor(c) => s.(cursor := c)
    case ClearCursorOverride => s.(cursorOverride := None)
    case SetHeadingLevel(l) => s.(headingLevel := Clamp(l, 1, 6))
    case InsertHeading(l) => HeadingInserted(s, l)
    case SetCodeChoice(c) => s.(codeChoice := c)
    case SetListChoice(c) => s.(listChoice := c)
    case SetMathChoice(c) => s.(mathChoice := c)
    case ApplyStyle(k) => StyleKindApplied(s, k)
    case InsertTable(r, c) => TableInserted(s, r, c)
    case SetTableRows(r) => s.(tableRows := Clamp(r, 1, 100))
    case SetTableCols(c) => s.(tableCols := Clamp(c, 1, 20))
  }

  function Run(s: State, msgs: seq<Msg>): State
  {
    if msgs == [] then s else Step(Run(s, msgs[..|msgs| - 1]), msgs[|msgs| - 1])
  }

  // ---------------------------------------------------------------------------
  // Properties of the style insertions

  /**
   * The selected characters are replaced and nothing else: the text before
   * and after the selection is kept, the insertion sits in between, and both
   * carets collapse right after it.
   */
  lemma ReplacedSplices(s: State, prefix: string, body: string, suffix: string, ensureNewline: bool)
    ensures var (startChar, endChar, selected) := Selection(s);
      var ins := Insertion(s.text, startChar, endChar, selected, prefix, body, suffix, ensureNewline);
      var a := CharToByte(s.text, startChar);
      var b := CharToByte(s.text, endChar);
      var t := Replaced(s, prefix, body, suffix, ensureNewline);
      && |t.text| == |s.text| - (b - a) + |ins|
      && t.text[..a] == s.text[..a]
      && t.text[a..a + |ins|] == ins
      && t.text[a + |ins|..] == s.text[b..]
      && t.cursor == t.cursorOverride == Some(Collapsed(startChar + |ins|))
      && t.(text := s.text, cursor := s.cursor, cursorOverride := s.cursorOverride) == s
  {
    var (startChar, endChar, selected) := Selection(s);
    var ins := Insertion(s.text, startChar, endChar, selected, prefix, body, suffix, ensureNewline);
    var a := CharToByte(s.text, startChar);
    var b := CharToByte(s.text, endChar);
    var t := Replaced(s, prefix, body, suffix, ensureNewline);
    assert t.text == s.text[..a] + ins + s.text[b..];
    assert t.text[a + |ins|..] == s.text[b..];
  }

  /**
   * A block insertion always ends in a line break, and starts with one of
   * its own exactly when the text is non-empty and does not end in one.
   */
  lemma BlockInsertionShape(text: string, startChar: nat, endChar: nat, selected: string,
                            prefix: string, body: string, suffix: string)
    ensures var ins := Insertion(text, startChar, endChar, selected, prefix, body, suffix, true);
      var core := prefix + body + suffix;
      var closed := if EndsWith(core, "\n") then core else core + "\n";
      && EndsWith(ins, "\n")
      && (ins == "\n" + closed <==> (text != [] && !EndsWith(text, "\n")))
      && (ins == closed <==> !(text != [] && !EndsWith(text, "\n")))
  {
  }

  /**
   * An inline insertion is the prefix, body and suffix, with one separating
   * space in front exactly when nothing is selected, the caret is collapsed
   * and the character before it exists and is not whitespace.
   */
  lemma InlineInsertionShape(text: string, startChar: nat, endChar: nat, selected: string,
                             prefix: string, body: string, suffix: string)
    ensures var ins := Insertion(text, startChar, endChar, selected, prefix, body, suffix, false);
      var core := prefix + body + suffix;
      var spaced := selected == [] && text != [] && startChar == endChar
                    && (startChar == 0 || !IsWhitespace(text[Min(startChar, |text|) - 1]));
      && (spaced ==> ins == " " + core)
      && (!spaced ==> ins == core)
  {
  }

  /** With a non-empty selection an inline style wraps exactly the selected text. */
  lemma InlineStyleWrapsSelection(s: State, prefix: string, suffix: string, placeholder: string)
    requires Selection(s).2 != []
    ensures var (startChar, endChar, selected) := Selection(s);
      StyleApplied(s, prefix, suffix, placeholder, false).text
        == s.text[..CharToByte(s.text, startChar)] + prefix + selected + suffix + s.text[CharToByte(s.text, endChar)..]
  {
  }

  /** With nothing selected, a style inserts its placeholder. */
  lemma EmptySelectionUsesPlaceholder(s: State, prefix: string, suffix: string, placeholder: string, ensureNewline: bool)
    requires Selection(s).2 == []
    ensures StyleApplied(s, prefix, suffix, placeholder, ensureNewline) == Replaced(s, prefix, placeholder, suffix, ensureNewline)
  {
  }

  /**
   * After a block insertion at a position inside the text, the caret is at
   * the start of a line: the character before it is a line break.
   */
  lemma BlockEndsLine(s: State, prefix: string, body: string, suffix: string)
    requires Selection(s).0 <= |s.text|
    ensures var t := Replaced(s, prefix, body, suffix, true);
      var p := t.cursor.value.primary;
      0 < p <= |t.text| && t.text[p - 1] == '\n'
  {
    var (startChar, endChar, selected) := Selection(s);
    var ins := Insertion(s.text, startChar, endChar, selected, prefix, body, suffix, true);
    BlockInsertionShape(s.text, startChar, endChar, selected, prefix, body, suffix);
    ReplacedSplices(s, prefix, body, suffix, true);
    var t := Replaced(s, prefix, body, suffix, true);
    assert t.text[startChar..startChar + |ins|] == ins;
    assert t.text[startChar + |ins| - 1] == ins[|ins| - 1];
  }

  /**
   * The kinds that are inserted inline (without line breaks of their own):
   * every other kind, inline math included, is inserted on its own line.
   */
  lemma InlineKinds(kind: StyleKind)
    ensures !StyleOf(kind).ensureNewline
      <==> kind in {Bold, Italic, Strikethrough, Underline, Link, Image, CodeInline}
  {
  }

  // ---------------------------------------------------------------------------
  // Properties of headings

  lemma TrimStartSuffix(s: string)
    ensures EndsWith(s, TrimStart(s)) && (TrimStart(s) == [] || !IsWhitespace(TrimStart(s)[0]))
  {
    TrimStartSpec(s);
  }

  /** The heading's text is never empty and has no whitespace at either end; it is `"Title"` or taken from the selection. */
  lemma HeadingContentSpec(selected: string)
    ensures var c := HeadingContent(selected);
      c != [] && IsTrimmed(c) && (c == "Title" || EndsWith(Trim(selected), c))
  {
    var t := Trim(selected);
    TrimIsTrimmed(selected);
    var m := TrimStartMatches(t, '#');
    assert EndsWith(t, m);
    var cleaned := TrimStart(m);
    TrimStartSuffix(m);
    SuffixOfSuffix(t, m, cleaned);
    if cleaned != [] {
      TrimmedSuffix(t, cleaned);
    } else {
      TitleIsTrimmed();
    }
  }

  lemma SuffixOfSuffix(a: string, b: string, c: string)
    requires EndsWith(a, b) && EndsWith(b, c)
    ensures EndsWith(a, c)
  {
    assert a[|a| - |c|..] == b[|b| - |c|..];
  }

  /** A suffix of a trimmed text that starts with a non-whitespace character is trimmed. */
  lemma TrimmedSuffix(t: string, u: string)
    requires IsTrimmed(t) && EndsWith(t, u) && u != [] && !IsWhitespace(u[0])
    ensures IsTrimmed(u)
  {
    assert u[|u| - 1] == t[|t| - 1];
  }

  lemma TitleIsTrimmed()
    ensures IsTrimmed("Title")
  {
    assert !IsWhitespace('T') && !IsWhitespace('e');
  }

  /**
   * `insert_heading` stores the clamped level, and the selection is replaced
   * by the line `"#" * level + " " + content` ending in a line break, with a
   * line break in front when the text does not already end in one.
   */
  lemma HeadingLine(s: State, level: U8)
    ensures var l := Clamp(level, 1, 6);
      var sel := Selection(s);
      var line := Repeat('#', l) + " " + HeadingContent(sel.2) + "\n";
      var lead := if s.text != [] && !EndsWith(s.text, "\n") then "\n" else "";
      var t := HeadingInserted(s, level);
      && t.headingLevel == l
      && t.text == s.text[..CharToByte(s.text, sel.0)] + lead + line + s.text[CharToByte(s.text, sel.1)..]
      && t.cursor == Some(Collapsed(sel.0 + |lead + line|))
  {
    var l := Clamp(level, 1, 6);
    var s1 := s.(headingLevel := l);
    IntendedReplaces(s, level);
    assert Selection(s1) == Selection(s);
    assert s1.text == s.text;
    LineReplaced(s1, Repeat('#', l) + " ", HeadingContent(Selection(s).2));
    var t := Replaced(s1, Repeat('#', l) + " ", HeadingContent(Selection(s).2), "\n", true);
    assert HeadingInserted(s, level) == t;
  }

  lemma IntendedReplaces(s: State, level: U8)
    ensures var l := Clamp(level, 1, 6);
      HeadingInserted(s, level) == Replaced(s.(headingLevel := l), Repeat('#', l) + " ", HeadingContent(Selection(s).2), "\n", true)
  {
    assert Selection(s.(headingLevel := Clamp(level, 1, 6))) == Selection(s);
  }

  /** A block insertion whose text already ends in a line break gets only the leading line break. */
  lemma LineReplaced(s: State, prefix: string, body: string)
    ensures var sel := Selection(s);
      var line := prefix + body + "\n";
      var lead := if s.text != [] && !EndsWith(s.text, "\n") then "\n" else "";
      var t := Replaced(s, prefix, body, "\n", true);
      && t.headingLevel == s.headingLevel
      && t.text == s.text[..CharToByte(s.text, sel.0)] + lead + line + s.text[CharToByte(s.text, sel.1)..]
      && t.cursor == Some(Collapsed(sel.0 + |lead + line|))
  {
    assert EndsWith(prefix + body + "\n", "\n");
  }

  /**
   * As written, a selected `"#A"` made a level-1 heading stays `"# #A"`; the
   * intended heading is `"# A"`.  (The text does not end in a line break, so
   * both start with one.)
   */
  lemma HeadingAsWrittenKeepsMarkers(s: State)
    requires s.text == "#A" && s.cursor == Some(CursorRange(2, 0))
    ensures HeadingInsertedAsWritten(s, 1).text == "\n# #A\n"
    ensures HeadingInserted(s, 1).text == "\n# A\n"
  {
    MarkedHeadings(s);
    OneHash();
  }

  lemma MarkedHeadings(s: State)
    requires s.text == "#A" && s.cursor == Some(CursorRange(2, 0))
    ensures HeadingInsertedAsWritten(s, 1).text == "\n" + Repeat('#', Clamp(1, 1, 6)) + " " + "#A" + "\n"
    ensures HeadingInserted(s, 1).text == "\n" + Repeat('#', Clamp(1, 1, 6)) + " " + "A" + "\n"
  {
    MarkedSelection(s);
    MarkedCleaned();
    HeadingOverWholeText(s, 1, "A");
  }

  lemma OneHash()
    ensures "\n" + Repeat('#', Clamp(1, 1, 6)) + " " + "#A" + "\n" == "\n# #A\n"
    ensures "\n" + Repeat('#', Clamp(1, 1, 6)) + " " + "A" + "\n" == "\n# A\n"
  {
    assert Repeat('#', Clamp(1, 1, 6)) == "#";
  }

  /**
   * A heading made from a selection covering the whole of a text that does
   * not end in a line break: a line break, the markers, and the cleaned text
   * (as written: the selection itself).
   */
  lemma HeadingOverWholeText(s: State, level: U8, content: string)
    requires Selection(s) == (0, |s.text|, s.text)
    requires s.text != [] && !EndsWith(s.text, "\n")
    requires HeadingContent(s.text) == content
    ensures HeadingInserted(s, level).text == "\n" + Repeat('#', Clamp(level, 1, 6)) + " " + content + "\n"
    ensures HeadingInsertedAsWritten(s, level).text == "\n" + Repeat('#', Clamp(level, 1, 6)) + " " + s.text + "\n"
  {
    var l := Clamp(level, 1, 6);
    var s1 := s.(headingLevel := l);
    assert Selection(s1) == Selection(s);
    WholeTextReplaced(s1, Repeat('#', l) + " ", content);
    WholeTextReplaced(s1, Repeat('#', l) + " ", s.text);
  }

  /** A block insertion over the whole of a text that does not end in a line break. */
  lemma WholeTextReplaced(s: State, prefix: string, body: string)
    requires Selection(s) == (0, |s.text|, s.text)
    requires s.text != [] && !EndsWith(s.text, "\n")
    ensures Replaced(s, prefix, body, "\n", true).text == "\n" + prefix + body + "\n"
  {
    assert EndsWith(prefix + body + "\n", "\n");
    assert s.text[..0] == [] && s.text[|s.text|..] == [];
  }

  lemma MarkedSelection(s: State)
    requires s.text == "#A" && s.cursor == Some(CursorRange(2, 0))
    ensures Selection(s) == (0, 2, "#A")
  {
  }

  lemma MarkedCleaned()
    ensures HeadingContent("#A") == "A"
  {
    assert !IsWhitespace('#') && !IsWhitespace('A');
    assert TrimStart("#A") == "#A";
    assert TrimEnd("#A") == "#A";
    assert TrimStartMatches("#A", '#') == "A" by {
      assert "#A"[1..] == "A";
    }
    assert TrimStart("A") == "A";
  }

  // ---------------------------------------------------------------------------
  // Properties of tables

  lemma NoBarInDigits(s: string)
    requires forall i :: 0 <= i < |s| ==> IsAsciiDigit(s[i])
    ensures '|' !in s && '\n' !in s
  {
    assert forall i :: 0 <= i < |s| ==> s[i] != '|' && s[i] != '\n';
  }

  lemma NoCharInRepeat(c: char, n: nat, d: char)
    requires c != d
    ensures d !in Repeat(c, n)
  {
    assert forall i :: 0 <= i < n ==> Repeat(c, n)[i] != d;
  }

  /** Every header cell reads `" Column k "`: the label padded by exactly one space on each side. */
  lemma HeaderTextIs(col: nat)
    ensures HeaderText(col) == " Column " + NatToString(col) + " "
    ensures '|' !in HeaderText(col) && '\n' !in HeaderText(col)
  {
    assert HeaderPadding(col) == 1;
    assert Repeat(' ', 1) == " ";
    NoBarInDigits(NatToString(col));
  }

  /** All cells of one column have the column's width, so the columns line up. */
  lemma ColumnsAligned(cols: nat, k: nat)
    requires k < cols
    ensures |HeaderTexts(cols)[k]| == |RuleTexts(cols)[k]| == |BlankTexts(cols)[k]| == ColumnWidth(k + 1)
  {
    HeaderTextIs(k + 1);
    HeaderTextsAt(cols, k);
    WidthsAt(cols, k);
    FilledAt(Widths(cols), '-', k);
    FilledAt(Widths(cols), ' ', k);
  }

  lemma CellsClean(cols: nat)
    ensures forall k :: 0 <= k < cols ==> '|' !in HeaderTexts(cols)[k] && '\n' !in HeaderTexts(cols)[k]
    ensures forall k :: 0 <= k < cols ==> '|' !in RuleTexts(cols)[k] && '\n' !in RuleTexts(cols)[k]
    ensures forall k :: 0 <= k < cols ==> '|' !in BlankTexts(cols)[k] && '\n' !in BlankTexts(cols)[k]
  {
    forall k | 0 <= k < cols
      ensures '|' !in HeaderTexts(cols)[k] && '\n' !in HeaderTexts(cols)[k]
      ensures '|' !in RuleTexts(cols)[k] && '\n' !in RuleTexts(cols)[k]
      ensures '|' !in BlankTexts(cols)[k] && '\n' !in BlankTexts(cols)[k]
    {
      HeaderTextIs(k + 1);
      HeaderTextsAt(cols, k);
      WidthsAt(cols, k);
      FilledAt(Widths(cols), '-', k);
      FilledAt(Widths(cols), ' ', k);
      NoCharInRepeat('-', ColumnWidth(k + 1), '|');
      NoCharInRepeat('-', ColumnWidth(k + 1), '\n');
      NoCharInRepeat(' ', ColumnWidth(k + 1), '|');
      NoCharInRepeat(' ', ColumnWidth(k + 1), '\n');
    }
  }

  lemma {:induction false} JoinHasNo(parts: seq<string>, delim: string, c: char)
    requires c !in delim
    requires forall k :: 0 <= k < |parts| ==> c !in parts[k]
    ensures c !in Join(parts, delim)
  {
    if |parts| > 1 {
      JoinHasNo(parts[1..], delim, c);
    }
  }

  lemma CellSnoc(cells: seq<string>, x: string)
    ensures Join([""] + cells + [x], "|") == Join([""] + cells, "|") + "|" + x
  {
    JoinSnoc([""] + cells, x, "|");
  }

  lemma LineSnoc(lines: seq<string>, x: string)
    ensures Join(lines + [x] + [""], "\n") == Join(lines + [""], "\n") + x + "\n"
  {
    JoinSnoc(lines + [x], "", "\n");
    JoinSnoc(lines, x, "\n");
    JoinSnoc(lines, "", "\n");
  }

  lemma {:induction false} CellsJoin(cells: seq<string>)
    ensures Cells(cells) == Join([""] + cells, "|")
  {
    if cells != [] {
      var init := cells[..|cells| - 1];
      CellsJoin(init);
      CellSnoc(init, cells[|cells| - 1]);
      assert [""] + init + [cells[|cells| - 1]] == [""] + cells;
    }
  }

  /** A table line is its cells joined by `|`, with a `|` at each end. */
  lemma RowJoin(cells: seq<string>)
    ensures Row(cells) == Join([""] + cells + [""], "|")
  {
    CellsJoin(cells);
    CellSnoc(cells, "");
  }

  lemma {:induction false} LinesJoin(lines: seq<string>)
    ensures Lines(lines) == Join(lines + [""], "\n")
  {
    if lines != [] {
      var init := lines[..|lines| - 1];
      LinesJoin(init);
      LineSnoc(init, lines[|lines| - 1]);
      assert init + [lines[|lines| - 1]] == lines;
    }
  }

  /** A line's cells are exactly the given ones, separated by `|`: `|cells| + 1` bars and no line break. */
  lemma RowCells(cells: seq<string>)
    requires forall k :: 0 <= k < |cells| ==> '|' !in cells[k] && '\n' !in cells[k]
    ensures Split(Row(cells), '|') == [""] + cells + [""]
    ensures CountChar(Row(cells), '|') == |cells| + 1
    ensures '\n' !in Row(cells)
  {
    RowJoin(cells);
    var parts := [""] + cells + [""];
    assert forall k :: 0 <= k < |parts| ==> '|' !in parts[k] && '\n' !in parts[k] by {
      forall k | 0 <= k < |parts| ensures '|' !in parts[k] && '\n' !in parts[k] {
        if 0 < k < |parts| - 1 {
          assert parts[k] == cells[k - 1];
        }
      }
    }
    SplitJoin(parts, '|');
    SplitCount(Row(cells), '|');
    JoinHasNo(parts, "|", '\n');
  }

  /** `table_snippet(rows, cols)` has a header line, a separator line and `max(rows, 1)` body lines. */
  lemma TableLineCount(rows: U8, cols: U8)
    ensures |TableLines(rows, cols)| == AtLeastOne(rows) + 2
    ensures forall i :: 2 <= i < |TableLines(rows, cols)| ==> TableLines(rows, cols)[i] == Row(BlankTexts(AtLeastOne(cols)))
  {
    var c := AtLeastOne(cols);
    PrefixCopies([Row(HeaderTexts(c)), Row(RuleTexts(c))], Row(BlankTexts(c)), AtLeastOne(rows));
  }

  lemma PrefixCopies(pre: seq<string>, x: string, n: nat)
    ensures forall i :: |pre| <= i < |pre| + n ==> (pre + Copies(x, n))[i] == x
  {
    forall i | |pre| <= i < |pre| + n
      ensures (pre + Copies(x, n))[i] == x
    {
      CopiesAt(x, n, i - |pre|);
    }
  }

  lemma TableLinesClean(rows: U8, cols: U8)
    ensures forall i :: 0 <= i < |TableLines(rows, cols)| ==>
      '\n' !in TableLines(rows, cols)[i] && CountChar(TableLines(rows, cols)[i], '|') == AtLeastOne(cols) + 1
  {
    forall i | 0 <= i < |TableLines(rows, cols)|
      ensures '\n' !in TableLines(rows, cols)[i] && CountChar(TableLines(rows, cols)[i], '|') == AtLeastOne(cols) + 1
    {
      TableLineClean(rows, cols, i);
    }
  }

  lemma TableLineClean(rows: U8, cols: U8, i: nat)
    requires i < |TableLines(rows, cols)|
    ensures '\n' !in TableLines(rows, cols)[i] && CountChar(TableLines(rows, cols)[i], '|') == AtLeastOne(cols) + 1
  {
    var c := AtLeastOne(cols);
    CellsClean(c);
    var cells := if i == 0 then HeaderTexts(c) else if i == 1 then RuleTexts(c) else BlankTexts(c);
    RowClean(cells);
    TableLineCount(rows, cols);
    assert TableLines(rows, cols)[i] == Row(cells);
  }

  lemma RowClean(cells: seq<string>)
    requires forall k :: 0 <= k < |cells| ==> '|' !in cells[k] && '\n' !in cells[k]
    ensures '\n' !in Row(cells) && CountChar(Row(cells), '|') == |cells| + 1
  {
    RowCells(cells);
  }

  /** Lines without line breaks, each ended by one and followed by an empty line, split back into themselves. */
  lemma LinesSplit(lines: seq<string>)
    requires forall k :: 0 <= k < |lines| ==> '\n' !in lines[k]
    ensures Split(Lines(lines) + "\n", '\n') == lines + ["", ""]
  {
    LinesPartsClean(lines);
    SplitJoinLines(lines + ["", ""]);
    LinesBlankJoin(lines);
  }

  lemma LinesPartsClean(lines: seq<string>)
    requires forall k :: 0 <= k < |lines| ==> '\n' !in lines[k]
    ensures forall k :: 0 <= k < |lines + ["", ""]| ==> '\n' !in (lines + ["", ""])[k]
  {
    var parts := lines + ["", ""];
    forall k | 0 <= k < |parts| ensures '\n' !in parts[k] {
      if k < |lines| {
        assert parts[k] == lines[k];
      }
    }
  }

  lemma SplitJoinLines(parts: seq<string>)
    requires |parts| >= 2
    requires forall k :: 0 <= k < |parts| ==> '\n' !in parts[k]
    ensures Split(Join(parts, "\n"), '\n') == parts
  {
    SplitJoin(parts, '\n');
    assert "\n" == ['\n'];
  }

  lemma LinesBlankJoin(lines: seq<string>)
    ensures Join(lines + ["", ""], "\n") == Lines(lines) + "\n"
  {
    LinesJoin(lines);
    JoinSnoc(lines + [""], "", "\n");
    assert lines + [""] + [""] == lines + ["", ""];
  }

  /** Each table line of `table_snippet(rows, cols)` ends in a line break, and a blank line follows the table. */
  lemma TableSnippetLines(rows: U8, cols: U8)
    ensures Split(TableSnippet(rows, cols), '\n') == TableLines(rows, cols) + ["", ""]
  {
    TableLinesClean(rows, cols);
    LinesSplit(TableLines(rows, cols));
  }

  lemma LinesSnoc(lines: seq<string>, x: string)
    ensures Lines(lines + [x]) == Lines(lines) + x + "\n"
  {
    assert (lines + [x])[..|lines|] == lines;
  }

  /** Every table line has `max(cols, 1) + 1` bars, so `max(cols, 1)` cells. */
  lemma TableLineBars(rows: U8, cols: U8, i: nat)
    requires i < |TableLines(rows, cols)|
    ensures CountChar(TableLines(rows, cols)[i], '|') == AtLeastOne(cols) + 1
  {
    TableLinesClean(rows, cols);
  }

  /** `line` splits at its bars into an empty piece, the cells `" Column 1 "` to `" Column c "`, and an empty piece. */
  predicate HeaderCells(line: string, c: nat)
  {
    var parts := Split(line, '|');
    && |parts| == c + 2
    && parts[0] == "" && parts[|parts| - 1] == ""
    && forall k :: 1 <= k <= c ==> parts[k] == " Column " + NatToString(k) + " "
  }

  /** The header line of `table_snippet(rows, cols)` holds the cells `" Column 1 "`, `" Column 2 "`, and so on. */
  lemma TableHeaderCells(rows: U8, cols: U8)
    ensures HeaderCells(TableLines(rows, cols)[0], AtLeastOne(cols))
  {
    var c: nat := AtLeastOne(cols);
    HeaderRowCells(c);
    assert TableLines(rows, cols)[0] == Row(HeaderTexts(c));
  }

  lemma HeaderRowCells(c: nat)
    ensures HeaderCells(Row(HeaderTexts(c)), c)
  {
    var cells := HeaderTexts(c);
    CellsClean(c);
    HeaderSplit(cells);
    forall k | 1 <= k <= c
      ensures cells[k - 1] == " Column " + NatToString(k) + " "
    {
      HeaderCellIs(c, k);
    }
  }

  lemma HeaderCellIs(c: nat, k: nat)
    requires 1 <= k <= c
    ensures HeaderTexts(c)[k - 1] == " Column " + NatToString(k) + " "
  {
    HeaderTextIs(k);
    HeaderTextsAt(c, k - 1);
  }

  lemma HeaderSplit(cells: seq<string>)
    requires forall k :: 0 <= k < |cells| ==> '|' !in cells[k] && '\n' !in cells[k]
    ensures var parts := Split(Row(cells), '|');
      |parts| == |cells| + 2 && parts[0] == "" && parts[|parts| - 1] == ""
      && forall k :: 1 <= k <= |cells| ==> parts[k] == cells[k - 1]
  {
    RowCells(cells);
    BracketedAt(cells);
  }

  lemma BracketedAt(cells: seq<string>)
    ensures var parts := [""] + cells + [""];
      |parts| == |cells| + 2 && parts[0] == "" && parts[|parts| - 1] == ""
      && forall k :: 1 <= k <= |cells| ==> parts[k] == cells[k - 1]
  {
  }

  /**
   * `insert_table_at_cursor` puts its block after the selection, at the start
   * of a line, and leaves both carets right after it; the text around it is
   * kept.
   */
  lemma BlockStartsLine(s: State, block: string)
    ensures var endChar := Selection(s).1;
      var at := CharToByte(s.text, endChar);
      var lead := BlockLead(s.text, at);
      var t := AddedAfterSelection(s, block);
      && |lead| <= 1
      && t.text == s.text[..at] + lead + block + s.text[at..]
      && (at + |lead| == 0 || (s.text[..at] + lead)[at + |lead| - 1] == '\n')
      && t.cursor == t.cursorOverride == Some(Collapsed(endChar + |lead| + |block|))
  {
    var at := CharToByte(s.text, Selection(s).1);
    LeadStartsLine(s.text, at);
  }

  /** After the lead, a line starts: the text before it is empty or ends in a line break. */
  lemma LeadStartsLine(text: string, at: nat)
    requires at <= |text|
    ensures var lead := BlockLead(text, at);
      && |lead| <= 1
      && (at + |lead| == 0 || (text[..at] + lead)[at + |lead| - 1] == '\n')
  {
    var lead := BlockLead(text, at);
    if lead == [] && at > 0 {
      assert EndsWith(text[..at], "\n");
      assert text[..at] + lead == text[..at];
    }
  }

  // ---------------------------------------------------------------------------
  // Properties of the reducer

  /** Every message keeps the heading level, the table rows and the table columns in their bounds. */
  lemma StepValid(s: State, msg: Msg)
    requires Valid(s)
    ensures Valid(Step(s, msg))
  {
  }

  lemma {:induction false} ReachableValid(msgs: seq<Msg>)
    ensures Valid(Run(Initial, msgs))
  {
    if msgs != [] {
      ReachableValid(msgs[..|msgs| - 1]);
      StepValid(Run(Initial, msgs[..|msgs| - 1]), msgs[|msgs| - 1]);
    }
  }

  /** `SetHeadingLevel`, `SetTableRows` and `SetTableCols` store their argument clamped and change nothing else. */
  lemma SettersClamp(s: State, v: U8)
    ensures Step(s, SetHeadingLevel(v)) == s.(headingLevel := Clamp(v, 1, 6))
    ensures Step(s, SetTableRows(v)) == s.(tableRows := Clamp(v, 1, 100))
    ensures Step(s, SetTableCols(v)) == s.(tableCols := Clamp(v, 1, 20))
    ensures (v < 1 ==> Step(s, SetHeadingLevel(v)).headingLevel == 1) && (v > 6 ==> Step(s, SetHeadingLevel(v)).headingLevel == 6)
    ensures (v > 100 ==> Step(s, SetTableRows(v)).tableRows == 100) && (v > 20 ==> Step(s, SetTableCols(v)).tableCols == 20)
  {
  }

  // ---------------------------------------------------------------------------
  // The table builder


  /** `n` pushes of `c`. */
  method PushChars(line: string, c: char, n: nat) returns (t: string)
    ensures t == line + Repeat(c, n)
  {
    t := line;
    for j := 0 to n
      invariant t == line + Repeat(c, j)
    {
      t := t + [c];
    }
  }

  /** One header line of `table_snippet`: every label after `"| "`, padded to its column's width. */
  method AppendHeaderRow(s0: string, labels: seq<string>, widths: seq<nat>) returns (s: string)
    requires widths == Widths(|labels|)
    requires forall k :: 0 <= k < |labels| ==> labels[k] == HeaderLabel(k + 1)
    ensures s == s0 + Row(HeaderTexts(|labels|)) + "\n"
  {
    var line := "";
    for k := 0 to |labels|
      invariant line == Cells(HeaderTexts(k))
    {
      ghost var before := line;
      WidthsAt(|labels|, k);
      line := line + "|";
      line := line + " ";
      line := line + labels[k];
      var used := 1 + |labels[k]|;
      if widths[k] > used {
        line := PushChars(line, ' ', widths[k] - used);
      }
      HeaderCellsStep(before, k);
    }
    s := s0 + line + "|" + "\n";
  }

  lemma HeaderCellsStep(before: string, k: nat)
    requires before == Cells(HeaderTexts(k))
    ensures Cells(HeaderTexts(k + 1)) == before + "|" + " " + HeaderLabel(k + 1) + Repeat(' ', HeaderPadding(k + 1))
  {
    assert HeaderTexts(k + 1)[..k] == HeaderTexts(k);
  }

  /** One separator or body line of `table_snippet`: every column filled with `fill` to its width. */
  method AppendFilledRow(s0: string, widths: seq<nat>, fill: char) returns (s: string)
    ensures s == s0 + Row(Filled(widths, fill)) + "\n"
  {
    var line := "";
    for k := 0 to |widths|
      invariant line == Cells(Filled(widths[..k], fill))
    {
      ghost var before := line;
      line := line + "|";
      line := PushChars(line, fill, widths[k]);
      FilledCellsStep(before, widths, fill, k);
    }
    assert widths[..|widths|] == widths;
    s := s0 + line + "|" + "\n";
  }

  lemma FilledCellsStep(before: string, widths: seq<nat>, fill: char, k: nat)
    requires k < |widths|
    requires before == Cells(Filled(widths[..k], fill))
    ensures Cells(Filled(widths[..k + 1], fill)) == before + "|" + Repeat(fill, widths[k])
  {
    assert widths[..k + 1][..k] == widths[..k];
    assert Filled(widths[..k + 1], fill)[..k] == Filled(widths[..k], fill);
  }

  /** `table_snippet`: the column labels and widths, then the lines, each built by nested loops. */
  method BuildTableSnippet(rows: U8, cols: U8) returns (s: string)
    ensures s == TableSnippet(rows, cols)
  {
    var r := if rows < 1 then 1 else rows;
    var c := if cols < 1 then 1 else cols;
    var labels, widths := ColumnLabels(c);
    ghost var header, rule := Row(HeaderTexts(c)), Row(RuleTexts(c));
    s := AppendHeaderRow("", labels, widths);
    s := AppendFilledRow(s, widths, '-');
    assert s == Lines([header, rule]) by {
      LinesSnoc([], header);
      LinesSnoc([header], rule);
    }
    s := AppendBodyRows(s, [header, rule], widths, r);
    s := s + "\n";
  }

  /** The labels `"Column 1"` to `"Column c"` and their widths. */
  method ColumnLabels(c: nat) returns (labels: seq<string>, widths: seq<nat>)
    ensures |labels| == c && widths == Widths(c)
    ensures forall k :: 0 <= k < c ==> labels[k] == HeaderLabel(k + 1)
  {
    labels, widths := [], [];
    for col := 1 to c + 1
      invariant |labels| == col - 1
      invariant widths == Widths(col - 1)
      invariant forall k :: 0 <= k < col - 1 ==> labels[k] == HeaderLabel(k + 1)
    {
      var name := "Column " + NatToString(col);
      labels := labels + [name];
      widths := widths + [|name| + 2];
    }
  }

  /** The `rows` body lines, appended after the lines already built. */
  method AppendBodyRows(s0: string, ghost lines0: seq<string>, widths: seq<nat>, rows: nat) returns (s: string)
    requires s0 == Lines(lines0)
    ensures s == Lines(lines0 + Copies(Row(Filled(widths, ' ')), rows))
  {
    ghost var blank := Row(Filled(widths, ' '));
    s := s0;
    assert lines0 + Copies(blank, 0) == lines0;
    for i := 0 to rows
      invariant s == Lines(lines0 + Copies(blank, i))
    {
      s := AppendFilledRow(s, widths, ' ');
      LinesSnoc(lines0 + Copies(blank, i), blank);
      assert lines0 + Copies(blank, i + 1) == lines0 + Copies(blank, i) + [blank];
    }
  }

  // ---------------------------------------------------------------------------
  // The model object

  /** `MarkdownModel`. */
  class MarkdownModel {
    var text: string
    var headingLevel: U8
    var cursor: Option<CursorRange>
    var cursorOverride: Option<CursorRange>
    var codeChoice: CodeChoice
    var listChoice: ListChoice
    var mathChoice: MathChoice
    var tableRows: U8
    var tableCols: U8

    function Snapshot(): State
      reads this
    {
      State(text, headingLevel, cursor, cursorOverride, codeChoice, listChoice, mathChoice, tableRows, tableCols)
    }

    /** `MarkdownModel::default()`. */
    constructor ()
      ensures Snapshot() == Initial
    {
      text, headingLevel, cursor, cursorOverride := "", 1, None, None;
      codeChoice, listChoice, mathChoice, tableRows, tableCols := InlineCode, Unordered, InlineMath, 2, 2;
    }

    /** The splice of `apply_style`: the selection is replaced by `prefix + body + suffix` and the adjustments. */
    method ReplaceSelection(prefix: string, body: string, suffix: string, ensureNewline: bool)
      modifies this
      ensures Snapshot() == Replaced(old(Snapshot()), prefix, body, suffix, ensureNewline)
    {
      var (startChar, endChar, selected) := Selection(Snapshot());
      var insertion := prefix + body + suffix;
      if ensureNewline {
        if !EndsWith(insertion, "\n") {
          insertion := insertion + "\n";
        }
        if !EndsWith(text, "\n") && text != [] {
          insertion := "\n" + insertion;
        }
      } else if selected == [] && text != [] && startChar == endChar
                && !EndsWithWhitespace(text[..CharToByte(text, startChar)]) {
        insertion := " " + insertion;
      }
      var start := CharToByte(text, startChar);
      var end := CharToByte(text, endChar);
      text := text[..start] + insertion + text[end..];
      var newPos := startChar + |insertion|;
      cursor := Some(Collapsed(newPos));
      cursorOverride := cursor;
    }

    /** `apply_style`. */
    method ApplyStyle(prefix: string, suffix: string, placeholder: string, ensureNewline: bool)
      modifies this
      ensures Snapshot() == StyleApplied(old(Snapshot()), prefix, suffix, placeholder, ensureNewline)
    {
      var (startChar, endChar, selected) := Selection(Snapshot());
      ReplaceSelection(prefix, if selected == [] then placeholder else selected, suffix, ensureNewline);
    }

    /** `insert_heading`, with the cleaned heading text inserted whether or not something is selected. */
    method InsertHeading(level: U8)
      modifies this
      ensures Snapshot() == HeadingInserted(old(Snapshot()), level)
    {
      var l := Clamp(level, 1, 6);
      ghost var s0 := Snapshot();
      IntendedReplaces(s0, level);
      headingLevel := l;
      assert Snapshot() == s0.(headingLevel := l);
      var hashes := Repeat('#', l);
      var (startChar, endChar, selected) := Selection(Snapshot());
      assert selected == Selection(s0).2;
      var cleaned := TrimStart(TrimStartMatches(Trim(selected), '#'));
      var content := if cleaned == [] then "Title" else cleaned;
      assert content == HeadingContent(selected);
      ReplaceSelection(hashes + " ", content, "\n", true);
    }

    /** `apply_style_kind`. */
    method ApplyStyleKind(kind: StyleKind)
      modifies this
      ensures Snapshot() == StyleKindApplied(old(Snapshot()), kind)
    {
      var st := StyleOf(kind);
      ApplyStyle(st.prefix, st.suffix, st.placeholder, st.ensureNewline);
    }

    /** The splice of `insert_table_at_cursor`. */
    method InsertAfterSelection(block: string)
      modifies this
      ensures Snapshot() == AddedAfterSelection(old(Snapshot()), block)
    {
      var (startChar, endChar, selected) := Selection(Snapshot());
      var insertByte := CharToByte(text, endChar);
      var insertion := "";
      if text != [] && (insertByte == 0 || !EndsWith(text[..insertByte], "\n")) {
        insertion := insertion + "\n";
      }
      insertion := insertion + block;
      text := text[..insertByte] + insertion + text[insertByte..];
      var newPos := endChar + |insertion|;
      cursor := Some(Collapsed(newPos));
      cursorOverride := cursor;
    }

    /** `insert_table_at_cursor`. */
    method InsertTableAtCursor(rows: U8, cols: U8)
      modifies this
      ensures Snapshot() == TableInserted(old(Snapshot()), rows, cols)
    {
      var snippet := BuildTableSnippet(rows, cols);
      InsertAfterSelection(snippet);
    }

    /** `update`. */
    method Update(msg: Msg)
      modifies this
      ensures Snapshot() == Step(old(Snapshot()), msg)
    {
      match msg
      case SetText(t) => text := t;
      case SetCursor(c) => cursor := c;
      case ClearCursorOverride => cursorOverride := None;
      case SetHeadingLevel(l) => headingLevel := Clamp(l, 1, 6);
      case InsertHeading(l) => InsertHeading(l);
      case SetCodeChoice(c) => codeChoice := c;
      case SetListChoice(c) => listChoice := c;
      case SetMathChoice(c) => mathChoice := c;
      case ApplyStyle(k) => ApplyStyleKind(k);
      case InsertTable(r, c) => InsertTableAtCursor(r, c);
      case SetTableRows(r) => tableRows := Clamp(r, 1, 100);
      case SetTableCols(c) => tableCols := Clamp(c, 1, 20);
    }
  }
}
