/**
 * The keyword collection of an entry: duplicates are dropped ignoring ASCII
 * case, the first occurrence is kept with its own casing, and nothing is
 * trimmed.
 */
module DomainKeywords {
  import opened Text

  /** No earlier item equals item `i` after ASCII lowercasing. */
  predicate IsFirstOccurrence(s: seq<string>, i: nat)
    requires i < |s|
  {
    forall j :: 0 <= j < i ==> AsciiLower(s[j]) != AsciiLower(s[i])
  }

  /** The items that are first occurrences, in their original order. */
  function Dedup(s: seq<string>): seq<string>
  {
    if s == [] then []
    else Dedup(s[..|s| - 1]) + (if IsFirstOccurrence(s, |s| - 1) then [s[|s| - 1]] else [])
  }

  /** The positions Dedup keeps, in increasing order. */
  function KeptIndices(s: seq<string>): seq<nat>
  {
    if s == [] then []
    else KeptIndices(s[..|s| - 1]) + (if IsFirstOccurrence(s, |s| - 1) then [|s| - 1] else [])
  }

  /** The keys already used by `s`. */
  function LowerKeys(s: seq<string>): (r: seq<string>)
    ensures |r| == |s| && forall i :: 0 <= i < |s| ==> r[i] == AsciiLower(s[i])
  {
    seq(|s|, i requires 0 <= i < |s| => AsciiLower(s[i]))
  }

  /** The first occurrences of a prefix do not depend on what follows it. */
  lemma FirstOccurrencePrefix(s: seq<string>, n: nat, i: nat)
    requires i < n <= |s|
    ensures IsFirstOccurrence(s[..n], i) <==> IsFirstOccurrence(s, i)
  {
    assert forall j :: 0 <= j <= i ==> s[..n][j] == s[j];
  }

  /**
   * Dedup keeps exactly the first occurrences: the result is the input at
   * the strictly increasing positions `KeptIndices(s)`, and those positions
   * are all the first occurrences.
   */
  lemma {:induction false} DedupIsSubsequence(s: seq<string>)
    ensures var r, idx := Dedup(s), KeptIndices(s);
      |idx| == |r|
      && (forall k :: 0 <= k < |idx| ==> idx[k] < |s| && r[k] == s[idx[k]] && IsFirstOccurrence(s, idx[k]))
      && (forall k, m :: 0 <= k < m < |idx| ==> idx[k] < idx[m])
      && (forall i :: 0 <= i < |s| && IsFirstOccurrence(s, i) ==> i in idx)
  {
    if s != [] {
      var front := s[..|s| - 1];
      DedupIsSubsequence(front);
      forall i | 0 <= i < |front| ensures IsFirstOccurrence(front, i) <==> IsFirstOccurrence(s, i) {
        FirstOccurrencePrefix(s, |s| - 1, i);
      }
    }
  }

  /** No two kept items are equal ignoring ASCII case. */
  lemma DedupUnique(s: seq<string>)
    ensures forall k, m :: 0 <= k < m < |Dedup(s)| ==> AsciiLower(Dedup(s)[k]) != AsciiLower(Dedup(s)[m])
  {
    DedupIsSubsequence(s);
    var r, idx := Dedup(s), KeptIndices(s);
    forall k, m | 0 <= k < m < |r| ensures AsciiLower(r[k]) != AsciiLower(r[m]) {
      assert idx[k] < idx[m] && IsFirstOccurrence(s, idx[m]);
    }
  }

  /** The earliest position whose item matches item `i` ignoring ASCII case. */
  function FirstMatch(s: seq<string>, i: nat): (j: nat)
    requires i < |s|
    ensures j <= i && AsciiLower(s[j]) == AsciiLower(s[i]) && IsFirstOccurrence(s, j)
  {
    if IsFirstOccurrence(s, i) then i
    else
      var j :| 0 <= j < i && AsciiLower(s[j]) == AsciiLower(s[i]);
      FirstMatch(s, j)
  }

  /**
   * Every input item has a match in the result ignoring ASCII case, and that
   * match is the first occurrence of the item's key, with its own casing.
   */
  lemma DedupCovers(s: seq<string>, i: nat)
    requires i < |s|
    ensures FirstMatch(s, i) < |s| && s[FirstMatch(s, i)] in Dedup(s)
  {
    DedupIsSubsequence(s);
    var idx := KeptIndices(s);
    var j := FirstMatch(s, i);
    var k :| 0 <= k < |idx| && idx[k] == j;
    assert Dedup(s)[k] == s[j];
  }

  /** If the key of `x` is already used by an item of `s`, appending `x` keeps nothing new. */
  lemma DedupSnoc(s: seq<string>, x: string)
    ensures AsciiLower(x) in LowerKeys(s) ==> Dedup(s + [x]) == Dedup(s)
    ensures AsciiLower(x) !in LowerKeys(s) ==> Dedup(s + [x]) == Dedup(s) + [x]
  {
    var t := s + [x];
    assert t[..|t| - 1] == s;
    if AsciiLower(x) in LowerKeys(s) {
      var j :| 0 <= j < |s| && LowerKeys(s)[j] == AsciiLower(x);
      assert AsciiLower(t[j]) == AsciiLower(t[|t| - 1]);
    } else {
      forall j | 0 <= j < |s| ensures AsciiLower(t[j]) != AsciiLower(t[|t| - 1]) {
        assert LowerKeys(s)[j] == AsciiLower(s[j]);
      }
    }
  }

  /** `Keywords`: the normalized keyword list. */
  class Keywords {
    var items: seq<string>

    /** No two held keywords agree after ASCII lowercasing. */
    predicate Valid()
      reads this
    {
      forall k, m :: 0 <= k < m < |items| ==> AsciiLower(items[k]) != AsciiLower(items[m])
    }

    /** `Keywords::new`: takes the list and normalizes it. */
    constructor (items: seq<string>)
      ensures this.items == Dedup(items)
      ensures Valid()
    {
      this.items := items;
      new;
      Normalize();
    }

    /**
     * `normalize`: keeps an item only when its lowercased key is not yet in
     * `seen`, and records the key of every kept item.
     */
    method Normalize()
      modifies this
      ensures items == Dedup(old(items))
      ensures Valid()
    {
      var input := items;
      var seen: seq<string> := [];
      var kept: seq<string> := [];
      var i := 0;
      while i < |input|
        invariant 0 <= i <= |input|
        invariant kept == Dedup(input[..i])
        invariant forall x :: x in seen <==> x in LowerKeys(input[..i])
      {
        var lower := AsciiLower(input[i]);
        DedupSnoc(input[..i], input[i]);
        assert input[..i + 1] == input[..i] + [input[i]];
        assert LowerKeys(input[..i + 1]) == LowerKeys(input[..i]) + [lower];
        if lower !in seen {
          seen := seen + [lower];
          kept := kept + [input[i]];
        }
        i := i + 1;
      }
      assert input[..i] == input;
      items := kept;
      DedupUnique(input);
    }

    /** `items`: the normalized list. */
    method Items() returns (r: seq<string>)
      ensures r == items
    {
      return items;
    }

    /** `into_vec`: the normalized list, handed over. */
    method IntoVec() returns (r: seq<string>)
      ensures r == items
    {
      return items;
    }
  }

  lemma LowerDna()
    ensures AsciiLower("DNA") == "dna" && AsciiLower("dna") == "dna" && AsciiLower("RNA") == "rna"
  {
    assert AsciiLowerChar('D') == 'd' && AsciiLowerChar('N') == 'n' && AsciiLowerChar('A') == 'a';
    assert AsciiLowerChar('d') == 'd' && AsciiLowerChar('n') == 'n' && AsciiLowerChar('a') == 'a';
    assert AsciiLowerChar('R') == 'r';
  }

  lemma DedupDnaFirst()
    ensures Dedup(["DNA"]) == ["DNA"]
  {
    DedupSnoc([], "DNA");
    assert [] + ["DNA"] == ["DNA"];
  }

  lemma DedupDnaSecond()
    ensures Dedup(["DNA", "dna"]) == ["DNA"]
  {
    LowerDna();
    DedupDnaFirst();
    assert LowerKeys(["DNA"]) == ["dna"];
    DedupSnoc(["DNA"], "dna");
    assert ["DNA"] + ["dna"] == ["DNA", "dna"];
  }

  /** The documented example: `["DNA", "dna", "RNA"]` normalizes to `["DNA", "RNA"]`. */
  lemma ExampleCaseDuplicates()
    ensures Dedup(["DNA", "dna", "RNA"]) == ["DNA", "RNA"]
  {
    LowerDna();
    DedupDnaSecond();
    assert LowerKeys(["DNA", "dna"]) == ["dna", "dna"];
    assert "rna" != "dna";
    DedupSnoc(["DNA", "dna"], "RNA");
    assert ["DNA", "dna"] + ["RNA"] == ["DNA", "dna", "RNA"];
  }

  /** Surrounding whitespace is kept, so `" a"` and `"a"` are different keywords. */
  lemma ExampleWhitespaceKept()
    ensures Dedup([" a", "a"]) == [" a", "a"]
  {
    assert AsciiLowerChar(' ') == ' ' && AsciiLowerChar('a') == 'a';
    assert AsciiLower(" a") == " a" && AsciiLower("a") == "a";
    DedupSnoc([], " a");
    assert [] + [" a"] == [" a"];
    assert LowerKeys([" a"]) == [" a"];
    DedupSnoc([" a"], "a");
    assert [" a"] + ["a"] == [" a", "a"];
  }
}
