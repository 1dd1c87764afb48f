/**
 * The filesystem-safe path-component transform used for attachment names,
 * the archive's root folder and the suggested archive name.
 */
module Sanitize {
  import opened Wrappers
  import opened Text

  // ---------------------------------------------------------------------------
  // Step 1: transliteration to ASCII

  /**
   * The ASCII spelling of one character.  ASCII characters stand for
   * themselves; the Latin-1 letters U+00C0-U+00FF map to their base letters
   * (`Å` to `A`, `é` to `e`, `ß` to `ss`, ...).  Characters outside this table
   * are passed through unchanged, so step 2 turns them into `_`.
   */
  function TransliterateChar(c: char): (r: string)
    ensures c as int < 0x80 ==> r == [c]
  {
    if c as int < 0xC0 || c as int > 0xFF then [c]
    else if '\U{00C0}' <= c <= '\U{00C5}' then "A"
    else if c == '\U{00C6}' then "AE"
    else if c == '\U{00C7}' then "C"
    else if '\U{00C8}' <= c <= '\U{00CB}' then "E"
    else if '\U{00CC}' <= c <= '\U{00CF}' then "I"
    else if c == '\U{00D0}' then "D"
    else if c == '\U{00D1}' then "N"
    else if '\U{00D2}' <= c <= '\U{00D6}' || c == '\U{00D8}' then "O"
    else if '\U{00D9}' <= c <= '\U{00DC}' then "U"
    else if c == '\U{00DD}' then "Y"
    else if c == '\U{00DE}' then "Th"
    else if c == '\U{00DF}' then "ss"
    else if '\U{00E0}' <= c <= '\U{00E5}' then "a"
    else if c == '\U{00E6}' then "ae"
    else if c == '\U{00E7}' then "c"
    else if '\U{00E8}' <= c <= '\U{00EB}' then "e"
    else if '\U{00EC}' <= c <= '\U{00EF}' then "i"
    else if c == '\U{00F0}' then "d"
    else if c == '\U{00F1}' then "n"
    else if '\U{00F2}' <= c <= '\U{00F6}' || c == '\U{00F8}' then "o"
    else if '\U{00F9}' <= c <= '\U{00FC}' then "u"
    else if c == '\U{00FD}' || c == '\U{00FF}' then "y"
    else if c == '\U{00FE}' then "th"
    else [c]
  }

  /** The concatenation of `f(c)` for every character `c` of `s`, in order. */
  function FlatMapChars(f: char -> string, s: string): string
  {
    if s == [] then [] else FlatMapChars(f, s[..|s| - 1]) + f(s[|s| - 1])
  }

  lemma {:induction false} FlatMapCharsConcat(f: char -> string, a: string, b: string)
    ensures FlatMapChars(f, a + b) == FlatMapChars(f, a) + FlatMapChars(f, b)
    decreases |b|
  {
    if b == [] {
      assert a + b == a;
    } else {
      var b', c := b[..|b| - 1], b[|b| - 1];
      var ab := a + b;
      assert ab[..|ab| - 1] == a + b' && ab[|ab| - 1] == c;
      assert FlatMapChars(f, ab) == FlatMapChars(f, a + b') + f(c);
      assert FlatMapChars(f, b) == FlatMapChars(f, b') + f(c);
      FlatMapCharsConcat(f, a, b');
    }
  }

  /** `deunicode::deunicode`, one character at a time with the table above. */
  function Transliterate(s: string): (r: string)
  {
    FlatMapChars(TransliterateChar, s)
  }

  predicate IsAscii(s: string) {
    forall i :: 0 <= i < |s| ==> s[i] as int < 0x80
  }

  /** Transliteration leaves ASCII text alone. */
  lemma {:induction false} TransliterateAscii(s: string)
    requires IsAscii(s)
    ensures Transliterate(s) == s
  {
    if s != [] {
      TransliterateAscii(s[..|s| - 1]);
      assert s == s[..|s| - 1] + [s[|s| - 1]];
    }
  }

  // ---------------------------------------------------------------------------
  // Step 2: mapping into the allowed set, collapsing runs of `_` and `.`

  predicate IsAllowed(c: char) {
    IsAsciiAlphanumeric(c) || c == '-' || c == '_' || c == '.'
  }

  predicate AllAllowed(s: string) {
    forall i :: 0 <= i < |s| ==> IsAllowed(s[i])
  }

  /** Allowed characters stand for themselves; every other character becomes `_`. */
  function MapChar(c: char): (m: char)
    ensures IsAllowed(m)
    ensures IsAllowed(c) ==> m == c
  {
    if IsAllowed(c) then c else '_'
  }

  /** Append `c` to `out`, except a `_` or `.` right after the same character. */
  function PushCollapsing(out: string, c: char): string
  {
    if (c == '_' || c == '.') && out != [] && out[|out| - 1] == c then out else out + [c]
  }

  /** The buffer the mapping loop leaves behind after reading all of `t`. */
  function Collapse(t: string): string
  {
    if t == [] then [] else PushCollapsing(Collapse(t[..|t| - 1]), MapChar(t[|t| - 1]))
  }

  /** No `_` or `.` directly follows the same character. */
  predicate NoRuns(s: string) {
    forall i :: 0 <= i < |s| - 1 ==> !(s[i] == s[i + 1] && (s[i] == '_' || s[i] == '.'))
  }

  /** Right after the mapping loop every character is allowed and there are no runs of `_` or `.`. */
  lemma {:induction false} CollapseShape(t: string)
    ensures AllAllowed(Collapse(t))
    ensures NoRuns(Collapse(t))
  {
    if t != [] {
      CollapseShape(t[..|t| - 1]);
    }
  }

  // ---------------------------------------------------------------------------
  // Step 3: removing the `_` of every `_.` pair

  /** `str::find("_.")`: the first index where `_.` starts. */
  function FindUnderscoreDot(s: string): (r: Option<nat>)
    ensures r.Some? ==> r.value + 1 < |s| && s[r.value] == '_' && s[r.value + 1] == '.'
    ensures r.Some? ==> forall j :: 0 <= j < r.value ==> !(s[j] == '_' && s[j + 1] == '.')
    ensures r.None? ==> forall j :: 0 <= j < |s| - 1 ==> !(s[j] == '_' && s[j + 1] == '.')
  {
    if |s| < 2 then None
    else if s[0] == '_' && s[1] == '.' then Some(0)
    else match FindUnderscoreDot(s[1..])
      case None => None
      case Some(i) => Some(i + 1)
  }

  lemma FindUnderscoreDotAt(s: string, i: nat)
    requires i + 1 < |s| && s[i] == '_' && s[i + 1] == '.'
    requires '_' !in s[..i] || '.' !in s[..i + 1]
    ensures FindUnderscoreDot(s) == Some(i)
  {
    forall k | 0 <= k < i ensures !(s[k] == '_' && s[k + 1] == '.') {
      assert s[k] == s[..i][k] && s[k + 1] == s[..i + 1][k + 1];
    }
  }

  /** Text without `_` or without `.` has no `_.` pair and passes step 3 unchanged. */
  lemma StripNothing(s: string)
    requires '_' !in s || '.' !in s
    ensures StripUnderscoreDots(s) == s
  {
    forall j | 0 <= j < |s| - 1 ensures !(s[j] == '_' && s[j + 1] == '.') {
      assert s[j] in s && s[j + 1] in s;
    }
  }

  /** Deleting the `_` of the first `_.` pair until none is left. */
  function StripUnderscoreDots(s: string): (r: string)
    ensures FindUnderscoreDot(r).None?
    ensures |r| <= |s|
    decreases |s|
  {
    match FindUnderscoreDot(s)
    case None => s
    case Some(pos) => StripUnderscoreDots(s[..pos] + s[pos + 1..])
  }

  /** Deleting characters keeps every remaining character allowed. */
  lemma {:induction false} StripKeepsAllowed(s: string)
    requires AllAllowed(s)
    ensures AllAllowed(StripUnderscoreDots(s))
    decreases |s|
  {
    match FindUnderscoreDot(s)
    case None =>
    case Some(pos) =>
      var t := s[..pos] + s[pos + 1..];
      assert forall i :: 0 <= i < |t| ==> t[i] == (if i < pos then s[i] else s[i + 1]);
      StripKeepsAllowed(t);
  }

  // ---------------------------------------------------------------------------
  // Step 4: popping trailing dots and spaces

  /** Pops trailing `.` and ` ` characters: exactly those, and no other character, are removed. */
  function TrimTrailingDots(s: string): (r: string)
    ensures |r| <= |s| && r == s[..|r|]
    ensures r == [] || (r[|r| - 1] != '.' && r[|r| - 1] != ' ')
    ensures forall k :: |r| <= k < |s| ==> s[k] == '.' || s[k] == ' '
  {
    if s != [] && (s[|s| - 1] == '.' || s[|s| - 1] == ' ') then TrimTrailingDots(s[..|s| - 1]) else s
  }

  // ---------------------------------------------------------------------------
  // Steps 5 and 6: fallback name and reserved device names

  const FallbackName: string := "eln_entry"

  /** The Windows device names that may not be a file's base name. */
  predicate IsReservedUpper(u: string) {
    u in {"CON", "PRN", "AUX", "NUL",
          "COM1", "COM2", "COM3", "COM4", "COM5", "COM6", "COM7", "COM8", "COM9",
          "LPT1", "LPT2", "LPT3", "LPT4", "LPT5", "LPT6", "LPT7", "LPT8", "LPT9"}
  }

  predicate IsReserved(base: string) {
    IsReservedUpper(AsciiUpper(base))
  }

  /** Device names have three or four characters. */
  lemma LongNamesNotReserved(base: string)
    requires |base| > 4 || |base| < 3
    ensures !IsReserved(base)
  {
    assert |AsciiUpper(base)| == |base|;
  }

  datatype NameParts = NameParts(base: string, ext: Option<string>)

  /**
   * `rsplit_once('.')` with a non-empty part before the dot gives base and
   * extension; otherwise the whole name is the base.
   */
  function SplitBase(s: string): (p: NameParts)
    ensures p.ext.None? ==> p.base == s
    ensures p.ext.None? <==> forall k :: 0 < k < |s| ==> s[k] != '.'
    ensures p.ext.Some? ==> p.base != [] && s == p.base + "." + p.ext.value && '.' !in p.ext.value
  {
    match LastIndexOf(s, '.')
    case None => NameParts(s, None)
    case Some(i) =>
      if i == 0 then NameParts(s, None)
      else
        assert s == s[..i] + "." + s[i + 1..];
        NameParts(s[..i], Some(s[i + 1..]))
  }

  /** The buffer after steps 1 to 4, before the fallback and reserved-name rules. */
  function Cleaned(value: string): string
  {
    TrimTrailingDots(StripUnderscoreDots(Collapse(Transliterate(value))))
  }

  /** The fallback and reserved-name rules applied to a cleaned buffer. */
  function Finish(out: string): string
  {
    if out == [] || out == "." || out == ".." then FallbackName
    else
      var p := SplitBase(out);
      if IsReserved(p.base) then
        match p.ext
        case Some(e) => p.base + "_" + "." + e
        case None => p.base + "_"
      else out
  }

  /** `sanitize_component(value)`. */
  function Sanitized(value: string): string
  {
    Finish(Cleaned(value))
  }

  /** The imperative transform: the character loop, the two clean-up loops and the two guards. */
  method SanitizeComponent(value: string) returns (out: string)
    ensures out == Sanitized(value)
  {
    var t := Transliterate(value);
    out := "";
    var last: Option<char> := None;
    for i := 0 to |t|
      invariant out == Collapse(t[..i])
      invariant last == (if out == [] then None else Some(out[|out| - 1]))
    {
      var ch := t[i];
      var mapped := if IsAsciiAlphanumeric(ch) || ch == '-' || ch == '_' || ch == '.' then ch else '_';
      if mapped == '_' {
        if last != Some('_') {
          out := out + ['_'];
          last := Some('_');
        }
      } else if mapped == '.' {
        if last != Some('.') {
          out := out + ['.'];
          last := Some('.');
        }
      } else {
        out := out + [mapped];
        last := Some(mapped);
      }
      assert t[..i + 1][..i] == t[..i];
    }
    assert t[..|t|] == t;
    ghost var collapsed := out;

    while FindUnderscoreDot(out).Some?
      invariant StripUnderscoreDots(out) == StripUnderscoreDots(collapsed)
      decreases |out|
    {
      var pos := FindUnderscoreDot(out).value;
      out := out[..pos] + out[pos + 1..];
    }
    ghost var stripped := out;

    while out != [] && (out[|out| - 1] == '.' || out[|out| - 1] == ' ')
      invariant TrimTrailingDots(out) == TrimTrailingDots(stripped)
    {
      out := out[..|out| - 1];
    }

    if out == [] || out == "." || out == ".." {
      return FallbackName;
    }

    var parts := SplitBase(out);
    var upper := AsciiUpper(parts.base);
    if IsReservedUpper(upper) {
      var newBase := parts.base + "_";
      out := match parts.ext
        case Some(e) => newBase + "." + e
        case None => newBase;
    }
  }

  // ---------------------------------------------------------------------------
  // Properties of the result

  /** The base name the reserved-name rule looks at. */
  function BaseName(s: string): string { SplitBase(s).base }

  /** After clean-up every character is allowed and the buffer does not end with `.`. */
  lemma CleanedShape(value: string)
    ensures AllAllowed(Cleaned(value))
    ensures Cleaned(value) == [] || Cleaned(value)[|Cleaned(value)| - 1] != '.'
  {
    var t := Transliterate(value);
    CollapseShape(t);
    StripKeepsAllowed(Collapse(t));
    var s := StripUnderscoreDots(Collapse(t));
    var out := TrimTrailingDots(s);
    assert forall i :: 0 <= i < |out| ==> out[i] == s[i];
  }

  /** The base and the extension of an allowed name are allowed. */
  lemma SplitBaseAllowed(out: string)
    requires AllAllowed(out)
    ensures AllAllowed(SplitBase(out).base)
    ensures SplitBase(out).ext.Some? ==> AllAllowed(SplitBase(out).ext.value)
  {
    var p := SplitBase(out);
    if p.ext.Some? {
      assert forall i :: 0 <= i < |p.base| ==> p.base[i] == out[i];
      assert forall i :: 0 <= i < |p.ext.value| ==> p.ext.value[i] == out[|p.base| + 1 + i];
    }
  }

  lemma FinishAllowed(out: string)
    requires AllAllowed(out)
    ensures AllAllowed(Finish(out))
  {
    SplitBaseAllowed(out);
  }

  lemma FinishShape(out: string)
    requires out == [] || out[|out| - 1] != '.'
    ensures Finish(out) != [] && Finish(out)[|Finish(out)| - 1] != '.'
  {
    if !(out == [] || out == "." || out == "..") {
      var p := SplitBase(out);
      if IsReserved(p.base) && p.ext.Some? {
        var e := p.ext.value;
        assert out == p.base + "." + e;
        assert e != [];
        assert e[|e| - 1] == out[|out| - 1];
      }
    }
  }

  /** Every character of the result is an ASCII letter or digit, `-`, `_` or `.`. */
  lemma SanitizedAllowed(value: string)
    ensures AllAllowed(Sanitized(value))
  {
    CleanedShape(value);
    FinishAllowed(Cleaned(value));
  }

  /** The result is never empty and never ends with `.`. */
  lemma SanitizedShape(value: string)
    ensures Sanitized(value) != []
    ensures Sanitized(value)[|Sanitized(value)| - 1] != '.'
  {
    CleanedShape(value);
    FinishShape(Cleaned(value));
  }

  /** A buffer that is empty or only dots after clean-up is replaced by the fallback name. */
  lemma SanitizedFallback(value: string)
    requires Cleaned(value) in {"", ".", ".."}
    ensures Sanitized(value) == FallbackName
  {
  }

  lemma ReservedNamesHaveNoUnderscoreOrDot(b: string)
    ensures IsReserved(b) ==> '_' !in b && '.' !in b && b != []
  {
    var u := AsciiUpper(b);
    if IsReserved(b) {
      forall i | 0 <= i < |b| ensures b[i] != '_' && b[i] != '.' {
        assert u[i] == AsciiUpperChar(b[i]);
      }
    }
  }

  lemma EndsWithUnderscoreNotReserved(b: string)
    requires b != [] && b[|b| - 1] == '_'
    ensures !IsReserved(b)
  {
    ReservedNamesHaveNoUnderscoreOrDot(b);
    assert b[|b| - 1] in b;
  }

  /**
   * The reserved-name rule on a cleaned, non-fallback buffer: the extension
   * is kept, and the base gets a trailing `_` exactly when it is a device
   * name in any letter case, so the new base is never a device name.
   */
  lemma FinishReservedRule(out: string)
    requires out !in {"", ".", ".."}
    ensures var p := SplitBase(out);
      SplitBase(Finish(out)) == NameParts(if IsReserved(p.base) then p.base + "_" else p.base, p.ext)
    ensures !IsReserved(BaseName(Finish(out)))
  {
    var p := SplitBase(out);
    var r := Finish(out);
    if IsReserved(p.base) {
      ReservedNamesHaveNoUnderscoreOrDot(p.base);
      var nb := p.base + "_";
      assert '.' !in nb;
      EndsWithUnderscoreNotReserved(nb);
      match p.ext
      case Some(e) =>
        assert r == nb + "." + e;
        SplitBaseOfJoined(nb, e);
      case None =>
        assert r == nb;
        assert LastIndexOf(nb, '.').None?;
    }
  }

  /** A base without `.` joined to an extension without `.` splits back into the two. */
  lemma SplitBaseOfJoined(b: string, e: string)
    requires b != [] && '.' !in b && '.' !in e
    ensures SplitBase(b + "." + e) == NameParts(b, Some(e))
  {
    var s := b + "." + e;
    LastIndexOfConcatNoDot(b + ".", e);
    assert LastIndexOf(b + ".", '.') == Some(|b|);
    assert s[..|b|] == b;
    assert s[|b| + 1..] == e;
  }

  /** The base name of a result is never a reserved device name. */
  lemma SanitizedBaseNotReserved(value: string)
    ensures !IsReserved(BaseName(Sanitized(value)))
  {
    var out := Cleaned(value);
    if out == [] || out == "." || out == ".." {
      assert LastIndexOf(FallbackName, '.').None?;
      assert AsciiUpper(FallbackName) == "ELN_ENTRY";
    } else {
      FinishReservedRule(out);
    }
  }

  /** Appending text without a `.` does not move the last `.`. */
  lemma {:induction false} LastIndexOfConcatNoDot(a: string, b: string)
    requires '.' !in b
    ensures LastIndexOf(a + b, '.') == LastIndexOf(a, '.')
    decreases |b|
  {
    if b == [] {
      assert a + b == a;
    } else {
      assert (a + b)[..|a + b| - 1] == a + b[..|b| - 1];
      LastIndexOfConcatNoDot(a, b[..|b| - 1]);
    }
  }

  // ---------------------------------------------------------------------------
  // Worked examples

  lemma TransliterateConcat(a: string, b: string)
    ensures Transliterate(a + b) == Transliterate(a) + Transliterate(b)
  {
    FlatMapCharsConcat(TransliterateChar, a, b);
  }

  lemma CollapseStep(a: string, c: char)
    ensures Collapse(a + [c]) == PushCollapsing(Collapse(a), MapChar(c))
  {
    assert (a + [c])[..|a|] == a;
  }

  lemma {:induction false} CollapseNonEmpty(t: string)
    ensures Collapse(t) == [] <==> t == []
  {
    if t != [] { CollapseNonEmpty(t[..|t| - 1]); }
  }

  /** Text that is already allowed and free of runs passes the mapping loop unchanged. */
  lemma {:induction false} CollapseClean(t: string)
    requires AllAllowed(t) && NoRuns(t)
    ensures Collapse(t) == t
  {
    if t != [] {
      CollapseClean(t[..|t| - 1]);
    }
  }

  /** `Collapse(b)` can be appended to `Collapse(a)` when the first character of `b` is not absorbed. */
  predicate Joinable(x: string, b: string) {
    x == [] || b == [] || !(x[|x| - 1] == MapChar(b[0]) && (MapChar(b[0]) == '_' || MapChar(b[0]) == '.'))
  }

  lemma {:induction false} CollapseAppend(a: string, b: string)
    requires Joinable(Collapse(a), b)
    ensures Collapse(a + b) == Collapse(a) + Collapse(b)
    decreases |b|
  {
    if b == [] {
      assert a + b == a;
    } else {
      var b' := b[..|b| - 1];
      var c := b[|b| - 1];
      assert a + b == (a + b') + [c];
      assert b == b' + [c];
      CollapseStep(a + b', c);
      CollapseStep(b', c);
      if b' != [] {
        assert b'[0] == b[0];
        CollapseAppend(a, b');
        CollapseNonEmpty(b');
      }
    }
  }

  /** A run of the same delimiter after a collapsed buffer ending in it is absorbed. */
  lemma CollapseAbsorb(a: string, d: char)
    requires d == '_' || d == '.'
    requires Collapse(a) != [] && Collapse(a)[|Collapse(a)| - 1] == d
    ensures Collapse(a + [d]) == Collapse(a)
  {
    CollapseStep(a, d);
  }

  function DotRun(k: nat): (r: string)
    ensures |r| == k && forall i :: 0 <= i < k ==> r[i] == '.'
  {
    seq(k, _ => '.')
  }

  /** A run of one or more dots collapses to a single dot. */
  lemma {:induction false} CollapseDotRun(k: nat)
    requires k >= 1
    ensures Collapse(DotRun(k)) == "."
  {
    if k > 1 {
      CollapseDotRun(k - 1);
      assert DotRun(k) == DotRun(k - 1) + ['.'];
      CollapseAbsorb(DotRun(k - 1), '.');
    }
  }

  /** A word that step 2 leaves alone and that can sit between two dots. */
  predicate PlainWord(w: string) {
    w != [] && AllAllowed(w) && NoRuns(w) && w[0] != '.' && w[|w| - 1] != '.'
  }

  /** Words separated by runs of dots: `words[0] + "." * runs[0] + words[1] + ...`. */
  function DotSeparated(words: seq<string>, runs: seq<nat>): string
    requires |words| >= 1 && |runs| == |words| - 1
  {
    if |words| == 1 then words[0]
    else DotSeparated(words[..|words| - 1], runs[..|runs| - 1]) + DotRun(runs[|runs| - 1]) + words[|words| - 1]
  }

  /**
   * Runs of dots between plain words collapse to single dots and the words
   * are kept, which is how multi-part extensions such as `.tar.gz` survive.
   */
  lemma {:induction false} CollapseDotSeparated(words: seq<string>, runs: seq<nat>)
    requires |words| >= 1 && |runs| == |words| - 1
    requires forall i :: 0 <= i < |words| ==> PlainWord(words[i])
    requires forall i :: 0 <= i < |runs| ==> runs[i] >= 1
    ensures Collapse(DotSeparated(words, runs)) == Join(words, ".")
  {
    var n := |words|;
    if n == 1 {
      CollapseClean(words[0]);
    } else {
      var ws, rs := words[..n - 1], runs[..n - 2];
      var w, k := words[n - 1], runs[n - 2];
      var front := DotSeparated(ws, rs);
      assert DotSeparated(words, runs) == front + DotRun(k) + w;
      assert forall i :: 0 <= i < |ws| ==> ws[i] == words[i];
      assert forall i :: 0 <= i < |rs| ==> rs[i] == runs[i];
      CollapseDotSeparated(ws, rs);
      assert words == ws + [w];
      CollapseNextWord(front, ws, k, w);
    }
  }

  lemma CollapseNextWord(front: string, ws: seq<string>, k: nat, w: string)
    requires |ws| >= 1 && forall i :: 0 <= i < |ws| ==> PlainWord(ws[i])
    requires Collapse(front) == Join(ws, ".") && k >= 1 && PlainWord(w)
    ensures Collapse(front + DotRun(k) + w) == Join(ws + [w], ".")
  {
    JoinLastWord(ws);
    CollapseRunThenWord(front, k, w);
    JoinSnoc(ws, w, ".");
  }

  lemma CollapseRunThenWord(front: string, k: nat, w: string)
    requires Collapse(front) != [] && Collapse(front)[|Collapse(front)| - 1] != '.'
    requires k >= 1 && PlainWord(w)
    ensures Collapse(front + DotRun(k) + w) == Collapse(front) + "." + w
  {
    CollapseDotRun(k);
    CollapseAppend(front, DotRun(k));
    CollapseClean(w);
    CollapseAppend(front + DotRun(k), w);
  }

  /** A join of plain words ends like its last word. */
  lemma JoinLastWord(ws: seq<string>)
    requires |ws| >= 1 && forall i :: 0 <= i < |ws| ==> PlainWord(ws[i])
    ensures var w, j := ws[|ws| - 1], Join(ws, "."); PlainWord(w) && j != [] && j[|j| - 1] == w[|w| - 1]
  {
    var n := |ws|;
    if n > 1 {
      JoinSnoc(ws[..n - 1], ws[n - 1], ".");
      assert ws == ws[..n - 1] + [ws[n - 1]];
    }
  }

  lemma DotSeparatedMultiPart()
    ensures DotSeparated(["data", "v1", "2.tar", "gz"], [2, 3, 2]) == "data..v1...2.tar..gz"
  {
    assert DotRun(2) == ".." && DotRun(3) == "...";
    assert DotSeparated(["data"], []) == "data";
    assert DotSeparated(["data", "v1"], [2]) == "data..v1" by {
      assert ["data", "v1"][..1] == ["data"];
    }
    assert DotSeparated(["data", "v1", "2.tar"], [2, 3]) == "data..v1...2.tar" by {
      assert ["data", "v1", "2.tar"][..2] == ["data", "v1"] && [2, 3][..1] == [2];
    }
    assert ["data", "v1", "2.tar", "gz"][..3] == ["data", "v1", "2.tar"] && [2, 3, 2][..2] == [2, 3];
  }

  lemma JoinMultiPart()
    ensures Join(["data", "v1", "2.tar", "gz"], ".") == "data.v1.2.tar.gz"
  {
    var words := ["data", "v1", "2.tar", "gz"];
    assert words[1..] == ["v1", "2.tar", "gz"];
    assert words[1..][1..] == ["2.tar", "gz"];
    assert words[1..][1..][1..] == ["gz"];
  }

  lemma CollapseMultiPart()
    ensures Collapse("data..v1...2.tar..gz") == "data.v1.2.tar.gz"
  {
    var words, runs := ["data", "v1", "2.tar", "gz"], [2, 3, 2];
    assert forall i :: 0 <= i < |words| ==> PlainWord(words[i]) by {
      assert PlainWord("data") && PlainWord("v1") && PlainWord("2.tar") && PlainWord("gz");
    }
    CollapseDotSeparated(words, runs);
    DotSeparatedMultiPart();
    JoinMultiPart();
  }

  lemma FinishMultiPart()
    ensures Finish("data.v1.2.tar.gz") == "data.v1.2.tar.gz"
  {
    var c := "data.v1.2.tar.gz";
    LastIndexOfAt(c, 13, '.');
    assert SplitBase(c).base == "data.v1.2.tar";
    LongNamesNotReserved("data.v1.2.tar");
  }

  /** `Sanitized` stage by stage, so that each stage can be shown on its own. */
  lemma SanitizedStages(value: string, t: string, c: string, d: string, e: string, out: string)
    requires Transliterate(value) == t && Collapse(t) == c
    requires StripUnderscoreDots(c) == d && TrimTrailingDots(d) == e && Finish(e) == out
    ensures Sanitized(value) == out
  {
  }

  lemma TransliterateMultiPart()
    ensures Transliterate("data..v1...2.tar..gz") == "data..v1...2.tar..gz"
  {
    TransliterateAscii("data..v1...2.tar..gz");
  }

  lemma StripMultiPart()
    ensures StripUnderscoreDots("data.v1.2.tar.gz") == "data.v1.2.tar.gz"
  {
    StripNothing("data.v1.2.tar.gz");
  }

  lemma TrimMultiPart()
    ensures TrimTrailingDots("data.v1.2.tar.gz") == "data.v1.2.tar.gz"
  {
  }

  lemma ExampleMultiPartExtension()
    ensures Sanitized("data..v1...2.tar..gz") == "data.v1.2.tar.gz"
  {
    var t, c := "data..v1...2.tar..gz", "data.v1.2.tar.gz";
    TransliterateMultiPart();
    CollapseMultiPart();
    StripMultiPart();
    TrimMultiPart();
    FinishMultiPart();
    SanitizedStages(t, t, c, c, c, c);
  }

  // "name." loses its trailing dot.

  lemma CleanTrailingDot()
    ensures Transliterate("name.") == "name."
    ensures Collapse("name.") == "name."
  {
    TransliterateAscii("name.");
    assert AllAllowed("name.") && NoRuns("name.");
    CollapseClean("name.");
  }

  lemma StripTrailingDot()
    ensures StripUnderscoreDots("name.") == "name."
  {
    StripNothing("name.");
  }

  lemma TrimTrailingDot()
    ensures TrimTrailingDots("name.") == "name"
  {
    assert "name."[..4] == "name";
  }

  lemma FinishTrailingDot()
    ensures Finish("name") == "name"
  {
    assert SplitBase("name") == NameParts("name", None);
    assert AsciiUpper("name") == "NAME";
  }

  lemma ExampleTrailingDot()
    ensures Sanitized("name.") == "name"
  {
    CleanTrailingDot();
    StripTrailingDot();
    TrimTrailingDot();
    FinishTrailingDot();
    SanitizedStages("name.", "name.", "name.", "name.", "name", "name");
  }

  // Device names get an `_` after the base name.

  lemma CleanCon()
    ensures Transliterate("CON") == "CON"
    ensures StripUnderscoreDots("CON") == "CON"
    ensures TrimTrailingDots("CON") == "CON"
  {
    TransliterateAscii("CON");
    StripNothing("CON");
  }

  lemma CollapseCon()
    ensures Collapse("CON") == "CON"
  {
    assert AllAllowed("CON") && NoRuns("CON");
    CollapseClean("CON");
  }

  lemma FinishCon()
    ensures Finish("CON") == "CON_"
  {
    assert SplitBase("CON") == NameParts("CON", None);
    assert AsciiUpper("CON") == "CON";
  }

  lemma ExampleReservedBare()
    ensures Sanitized("CON") == "CON_"
  {
    CleanCon();
    CollapseCon();
    FinishCon();
    SanitizedStages("CON", "CON", "CON", "CON", "CON", "CON_");
  }

  lemma CleanNulTxt()
    ensures Transliterate("NUL.txt") == "NUL.txt"
    ensures Collapse("NUL.txt") == "NUL.txt"
  {
    TransliterateAscii("NUL.txt");
    CollapseNulTxt();
  }

  lemma CollapseNulTxt()
    ensures Collapse("NUL.txt") == "NUL.txt"
  {
    var s := "NUL.txt";
    assert AllAllowed(s) by {
      assert forall i :: 0 <= i < |s| ==> IsAllowed(s[i]);
    }
    assert NoRuns(s);
    CollapseClean(s);
  }

  lemma StripNulTxt()
    ensures StripUnderscoreDots("NUL.txt") == "NUL.txt"
    ensures TrimTrailingDots("NUL.txt") == "NUL.txt"
  {
    StripNothing("NUL.txt");
  }

  lemma FinishNulTxt()
    ensures Finish("NUL.txt") == "NUL_.txt"
  {
    LastIndexOfAt("NUL.txt", 3, '.');
    assert SplitBase("NUL.txt") == NameParts("NUL", Some("txt"));
    assert AsciiUpper("NUL") == "NUL";
    assert "NUL" + "_" + "." + "txt" == "NUL_.txt";
  }

  lemma ExampleReservedWithExtension()
    ensures Sanitized("NUL.txt") == "NUL_.txt"
  {
    CleanNulTxt();
    StripNulTxt();
    FinishNulTxt();
    SanitizedStages("NUL.txt", "NUL.txt", "NUL.txt", "NUL.txt", "NUL.txt", "NUL_.txt");
  }

  // Nothing but dots falls back to the default name.

  lemma CleanOnlyDots()
    ensures Transliterate("...") == "..."
    ensures Collapse("...") == "."
  {
    TransliterateAscii("...");
    CollapseDotRun(3);
    assert DotRun(3) == "...";
  }

  lemma StripOnlyDots()
    ensures StripUnderscoreDots(".") == "."
    ensures TrimTrailingDots(".") == ""
    ensures Finish("") == FallbackName
  {
    StripNothing(".");
  }

  lemma ExampleOnlyDots()
    ensures Sanitized("...") == "eln_entry"
  {
    CleanOnlyDots();
    StripOnlyDots();
    SanitizedStages("...", "...", ".", ".", "", FallbackName);
  }

  // Accented letters are transliterated, and the `_` before `.md` is dropped.

  lemma TransliterateAccentedLetter()
    ensures Transliterate("Caf\U{00E9}") == "Cafe"
  {
    TransliterateConcat("Caf", "\U{00E9}");
    assert "Caf" + "\U{00E9}" == "Caf\U{00E9}";
    TransliterateAscii("Caf");
    assert Transliterate("\U{00E9}") == "e" by {
      assert "\U{00E9}"[..0] == [];
    }
  }

  lemma TransliterateAccentsTail()
    ensures Transliterate(" (draft).md") == " (draft).md"
  {
    TransliterateAscii(" (draft).md");
  }

  lemma TransliterateAccents()
    ensures Transliterate("Caf\U{00E9} (draft).md") == "Cafe (draft).md"
  {
    TransliterateAccentedLetter();
    TransliterateAccentsTail();
    TransliterateConcat("Caf\U{00E9}", " (draft).md");
    assert "Caf\U{00E9}" + " (draft).md" == "Caf\U{00E9} (draft).md";
    assert "Cafe" + " (draft).md" == "Cafe (draft).md";
  }

  lemma CollapseOpenParen()
    ensures Collapse(" (") == "_"
  {
    CollapseStep(" ", '(');
    assert Collapse(" ") == "_" by { assert " "[..0] == []; }
    assert " " + ['('] == " (";
  }

  lemma CollapseCloseParen()
    ensures Collapse(").md") == "_.md"
  {
    CollapseClean(".md");
    assert Collapse(")") == "_" by { assert ")"[..0] == []; }
    CollapseAppend(")", ".md");
    assert ")" + ".md" == ").md";
  }

  lemma CollapseAccentsParts()
    ensures Collapse("Cafe") == "Cafe"
    ensures Collapse(" (") == "_"
    ensures Collapse("draft") == "draft"
    ensures Collapse(").md") == "_.md"
  {
    CollapseClean("Cafe");
    CollapseOpenParen();
    CollapseClean("draft");
    CollapseCloseParen();
  }

  /** `CollapseAppend` with both halves already collapsed. */
  lemma CollapseJoin(a: string, b: string, ca: string, cb: string)
    requires Collapse(a) == ca && Collapse(b) == cb && Joinable(ca, b)
    ensures Collapse(a + b) == ca + cb
  {
    CollapseAppend(a, b);
  }

  lemma CollapseAccentsFirst()
    ensures Collapse("Cafe (") == "Cafe_"
  {
    CollapseAccentsParts();
    CollapseJoin("Cafe", " (", "Cafe", "_");
    assert "Cafe" + " (" == "Cafe (" && "Cafe" + "_" == "Cafe_";
  }

  lemma CollapseAccentsSecond()
    ensures Collapse("Cafe (draft") == "Cafe_draft"
  {
    CollapseAccentsFirst();
    CollapseAccentsParts();
    CollapseJoin("Cafe (", "draft", "Cafe_", "draft");
    assert "Cafe (" + "draft" == "Cafe (draft" && "Cafe_" + "draft" == "Cafe_draft";
  }

  lemma CollapseAccents()
    ensures Collapse("Cafe (draft).md") == "Cafe_draft_.md"
  {
    CollapseAccentsSecond();
    CollapseAccentsParts();
    assert Joinable("Cafe_draft", ").md");
    CollapseJoin("Cafe (draft", ").md", "Cafe_draft", "_.md");
    assert "Cafe (draft" + ").md" == "Cafe (draft).md" && "Cafe_draft" + "_.md" == "Cafe_draft_.md";
  }

  lemma FindInAccents()
    ensures FindUnderscoreDot("Cafe_draft_.md") == Some(10)
  {
    var c := "Cafe_draft_.md";
    assert c[..11] == "Cafe_draft_";
    FindUnderscoreDotAt(c, 10);
  }

  lemma DeleteInAccents()
    ensures "Cafe_draft_.md"[..10] + "Cafe_draft_.md"[11..] == "Cafe_draft.md"
  {
  }

  lemma NoPairInAccents()
    ensures FindUnderscoreDot("Cafe_draft.md").None?
  {
    var d := "Cafe_draft.md";
    assert forall k | 0 <= k < |d| - 1 :: !(d[k] == '_' && d[k + 1] == '.');
  }

  lemma StripAccents()
    ensures StripUnderscoreDots("Cafe_draft_.md") == "Cafe_draft.md"
  {
    FindInAccents();
    DeleteInAccents();
    NoPairInAccents();
  }

  lemma FinishAccents()
    ensures TrimTrailingDots("Cafe_draft.md") == "Cafe_draft.md"
    ensures Finish("Cafe_draft.md") == "Cafe_draft.md"
  {
    var d := "Cafe_draft.md";
    LastIndexOfAt(d, 10, '.');
    assert SplitBase(d) == NameParts("Cafe_draft", Some("md"));
    LongNamesNotReserved("Cafe_draft");
  }

  lemma ExampleAccents()
    ensures Sanitized("Caf\U{00E9} (draft).md") == "Cafe_draft.md"
  {
    TransliterateAccents();
    CollapseAccents();
    StripAccents();
    FinishAccents();
    SanitizedStages("Caf\U{00E9} (draft).md", "Cafe (draft).md", "Cafe_draft_.md",
                    "Cafe_draft.md", "Cafe_draft.md", "Cafe_draft.md");
  }

  // The transform is not idempotent: removing `_` from `_.` can create a new `..`.

  lemma CleanUnderscoreBetweenDots()
    ensures Transliterate("a._.b") == "a._.b"
    ensures Collapse("a._.b") == "a._.b"
  {
    TransliterateAscii("a._.b");
    CollapseClean("a._.b");
  }

  lemma StripUnderscoreBetweenDots()
    ensures StripUnderscoreDots("a._.b") == "a..b"
  {
    FindUnderscoreDotAt("a._.b", 2);
    assert "a._.b"[..2] + "a._.b"[3..] == "a..b";
    StripNothing("a..b");
  }

  lemma FinishUnderscoreBetweenDots()
    ensures TrimTrailingDots("a..b") == "a..b"
    ensures Finish("a..b") == "a..b"
  {
    LastIndexOfAt("a..b", 2, '.');
    assert SplitBase("a..b") == NameParts("a.", Some("b"));
    LongNamesNotReserved("a.");
  }

  lemma CollapseDoubleDotFront()
    ensures Collapse("a..") == "a."
  {
    CollapseClean("a.");
    CollapseAbsorb("a.", '.');
    assert "a." + ['.'] == "a..";
  }

  lemma CleanDoubleDot()
    ensures Transliterate("a..b") == "a..b"
    ensures Collapse("a..b") == "a.b"
  {
    TransliterateAscii("a..b");
    CollapseDoubleDotFront();
    CollapseClean("b");
    CollapseJoin("a..", "b", "a.", "b");
    assert "a.." + "b" == "a..b" && "a." + "b" == "a.b";
  }

  lemma FinishDoubleDot()
    ensures StripUnderscoreDots("a.b") == "a.b"
    ensures TrimTrailingDots("a.b") == "a.b"
    ensures Finish("a.b") == "a.b"
  {
    StripNothing("a.b");
    LastIndexOfAt("a.b", 1, '.');
    assert SplitBase("a.b") == NameParts("a", Some("b"));
    LongNamesNotReserved("a");
  }

  lemma NotIdempotent()
    ensures Sanitized("a._.b") == "a..b"
    ensures Sanitized("a..b") == "a.b"
  {
    CleanUnderscoreBetweenDots();
    StripUnderscoreBetweenDots();
    FinishUnderscoreBetweenDots();
    SanitizedStages("a._.b", "a._.b", "a._.b", "a..b", "a..b", "a..b");
    CleanDoubleDot();
    FinishDoubleDot();
    SanitizedStages("a..b", "a..b", "a.b", "a.b", "a.b", "a.b");
  }
}
