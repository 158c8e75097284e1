/**
 * The institutional-address allocator and duplicate matcher (`EmailGenerator`).
 *
 * Names are normalised (lower case, accents stripped, alphanumerics kept) to
 * build addresses `first.last@domain` and comparison keys (the sorted tokens of
 * the whole name). A roster index maps each existing person's key to their
 * address; the allocator walks a fixed ladder of candidates and takes the first
 * one that is neither a pre-existing address nor one handed out in this batch.
 */
module EmailGenerator {
  import opened Wrappers
  import opened Text
  import opened Records

  /** The default institutional domain. */
  const DefaultDomain: string := "ecr.edu.co"

  /** The largest numeric suffix the allocator tries. */
  const MaxCounter: nat := 9999

  // ------------------------------------------------------------------
  // Normalisation (`_normalize_for_email`)
  // ------------------------------------------------------------------

  /**
   * Canonical decomposition followed by dropping the combining marks, and the
   * explicit ñ/ü replacements, on an already lower-cased character.
   */
  function StripAccent(c: char): char {
    if c == 'á' then 'a'
    else if c == 'é' then 'e'
    else if c == 'í' then 'i'
    else if c == 'ó' then 'o'
    else if c == 'ú' then 'u'
    else if c == 'ñ' then 'n'
    else if c == 'ü' then 'u'
    else c
  }

  function StripAccents(s: string): string {
    seq(|s|, i requires 0 <= i < |s| => StripAccent(s[i]))
  }

  /** `''.join(c for c in s if c.isalnum())`. */
  function FilterAlnum(s: string): string {
    if s == [] then [] else (if IsAlnum(s[0]) then [s[0]] else []) + FilterAlnum(s[1..])
  }

  /** Filtering keeps only alphanumeric characters of the input. */
  lemma {:induction false} FilterAlnumChars(s: string)
    ensures forall c :: c in FilterAlnum(s) ==> c in s && IsAlnum(c)
  {
    if s != [] {
      FilterAlnumChars(s[1..]);
    }
  }

  /** `''.join(c for c in s if c.isalnum() or c == ' ')`. */
  function FilterAlnumOrSpace(s: string): string {
    if s == [] then []
    else (if IsAlnum(s[0]) || s[0] == ' ' then [s[0]] else []) + FilterAlnumOrSpace(s[1..])
  }

  /** `s.replace(' ', '')`. */
  function RemoveSpaces(s: string): string {
    if s == [] then [] else (if s[0] == ' ' then [] else [s[0]]) + RemoveSpaces(s[1..])
  }

  /** Removing blanks keeps only characters of the input, and no blank. */
  lemma {:induction false} RemoveSpacesChars(s: string)
    ensures forall c :: c in RemoveSpaces(s) ==> c in s && c != ' '
  {
    if s != [] {
      RemoveSpacesChars(s[1..]);
    }
  }

  /**
   * `_normalize_for_email(text, preserve_spaces)`: lower-case, strip accents,
   * then either drop every non-alphanumeric (address mode) or collapse runs of
   * whitespace to one space and drop every other non-alphanumeric (comparison mode).
   */
  function NormalizeForEmail(text: string, preserveSpaces: bool): string {
    if text == "" then ""
    else
      var t := StripAccents(Lower(text));
      if preserveSpaces then FilterAlnumOrSpace(Join(Split(t)))
      else FilterAlnum(RemoveSpaces(t))
  }

  /** A character that may appear in a normalised address part. */
  predicate IsAddressChar(c: char) { IsAsciiLower(c) || IsDigit(c) }

  lemma {:induction false} FoldedCharShape(c: char)
    ensures var f := StripAccent(LowerChar(c));
      !IsAsciiUpper(f) && !IsAccentedUpper(f) && !IsAccentedLower(f)
  {
  }

  /** Address mode yields only lower-case ASCII letters and digits: no spaces, no accents. */
  lemma {:induction false} NormalizeForAddressChars(text: string)
    ensures forall i :: 0 <= i < |NormalizeForEmail(text, false)| ==>
      IsAddressChar(NormalizeForEmail(text, false)[i])
  {
    if text != "" {
      var t := StripAccents(Lower(text));
      var r := NormalizeForEmail(text, false);
      forall i | 0 <= i < |r|
        ensures IsAddressChar(r[i])
      {
        FilterAlnumChars(RemoveSpaces(t));
        assert r[i] in RemoveSpaces(t);
        RemoveSpacesChars(t);
        assert r[i] in t;
        var j :| 0 <= j < |t| && t[j] == r[i];
        FoldedCharShape(text[j]);
      }
    }
  }

  lemma {:induction false} NormalizeEmpty(preserveSpaces: bool)
    ensures NormalizeForEmail("", preserveSpaces) == ""
  {
  }

  lemma {:induction false} RemoveSpacesConcat(a: string, b: string)
    ensures RemoveSpaces(a + b) == RemoveSpaces(a) + RemoveSpaces(b)
  {
    if a != [] {
      assert (a + b)[1..] == a[1..] + b;
      RemoveSpacesConcat(a[1..], b);
    } else {
      assert a + b == b;
    }
  }

  lemma {:induction false} RemoveSpacesNoBlank(s: string)
    requires forall i :: 0 <= i < |s| ==> s[i] != ' '
    ensures RemoveSpaces(s) == s
  {
    if s != [] {
      RemoveSpacesNoBlank(s[1..]);
    }
  }

  lemma {:induction false} FilterAlnumAllAlnum(s: string)
    requires forall i :: 0 <= i < |s| ==> IsAlnum(s[i])
    ensures FilterAlnum(s) == s
  {
    if s != [] {
      FilterAlnumAllAlnum(s[1..]);
    }
  }

  /** A name made only of ASCII letters and digits normalises to its lower-case form. */
  lemma {:induction false} NormalizePlainName(text: string)
    requires forall i :: 0 <= i < |text| ==> IsAsciiUpper(text[i]) || IsAsciiLower(text[i]) || IsDigit(text[i])
    ensures NormalizeForEmail(text, false) == Lower(text)
  {
    if text != "" {
      var l := Lower(text);
      assert StripAccents(l) == l;
      RemoveSpacesNoBlank(l);
      FilterAlnumAllAlnum(l);
    }
  }

  lemma {:induction false} FoldMariaJose(t: string)
    requires t == "María José"
    ensures Fold(t) == "maria jose"
  {
  }

  lemma {:induction false} RemoveSpacesBlank()
    ensures RemoveSpaces(" ") == ""
  {
  }

  lemma {:induction false} FilterAlnumOrSpaceBlank()
    ensures FilterAlnumOrSpace(" ") == " "
  {
  }

  lemma {:induction false} RemoveSpacesAroundBlank(w1: string, w2: string)
    requires forall i :: 0 <= i < |w1| ==> w1[i] != ' '
    requires forall i :: 0 <= i < |w2| ==> w2[i] != ' '
    ensures RemoveSpaces(w1 + " " + w2) == w1 + w2
  {
    calc {
      RemoveSpaces(w1 + " " + w2);
    == { RemoveSpacesConcat(w1 + " ", w2); }
      RemoveSpaces(w1 + " ") + RemoveSpaces(w2);
    == { RemoveSpacesConcat(w1, " "); RemoveSpacesBlank(); }
      RemoveSpaces(w1) + RemoveSpaces(w2);
    == { RemoveSpacesNoBlank(w1); RemoveSpacesNoBlank(w2); }
      w1 + w2;
    }
  }

  lemma {:induction false} FilterAlnumOrSpaceAllAlnum(s: string)
    requires forall i :: 0 <= i < |s| ==> IsAlnum(s[i])
    ensures FilterAlnumOrSpace(s) == s
  {
    if s != [] {
      FilterAlnumOrSpaceAllAlnum(s[1..]);
    }
  }

  lemma {:induction false} FilterAlnumOrSpaceAppendBlank(w: string)
    ensures FilterAlnumOrSpace(w + " ") == FilterAlnumOrSpace(w) + " "
  {
    FilterAlnumOrSpaceConcat(w, " ");
    FilterAlnumOrSpaceBlank();
  }

  lemma {:induction false} FilterAlnumOrSpaceAroundBlank(w1: string, w2: string)
    requires forall i :: 0 <= i < |w1| ==> IsAlnum(w1[i])
    requires forall i :: 0 <= i < |w2| ==> IsAlnum(w2[i])
    ensures FilterAlnumOrSpace(w1 + " " + w2) == w1 + " " + w2
  {
    calc {
      FilterAlnumOrSpace(w1 + " " + w2);
    == { FilterAlnumOrSpaceConcat(w1 + " ", w2); }
      FilterAlnumOrSpace(w1 + " ") + FilterAlnumOrSpace(w2);
    == { FilterAlnumOrSpaceAppendBlank(w1); }
      FilterAlnumOrSpace(w1) + " " + FilterAlnumOrSpace(w2);
    == { FilterAlnumOrSpaceAllAlnum(w1); FilterAlnumOrSpaceAllAlnum(w2); }
      w1 + " " + w2;
    }
  }

  lemma {:induction false} SplitTwoWords(w1: string, w2: string)
    requires IsWord(w1) && IsWord(w2)
    ensures Split(w1 + " " + w2) == [w1, w2]
  {
    assert [w1, w2][1..] == [w2];
    assert Join([w1, w2]) == w1 + " " + w2;
    SplitJoin([w1, w2]);
  }

  /** A text folding to two alphanumeric words is glued in address mode. */
  lemma {:induction false} NormalizeTwoWordsForAddress(t: string, w1: string, w2: string)
    requires Fold(t) == w1 + " " + w2
    requires forall i :: 0 <= i < |w1| ==> IsAlnum(w1[i])
    requires forall i :: 0 <= i < |w2| ==> IsAlnum(w2[i])
    ensures NormalizeForEmail(t, false) == w1 + w2
  {
    assert |Fold(t)| == |t|;
    calc {
      NormalizeForEmail(t, false);
      FilterAlnum(RemoveSpaces(Fold(t)));
    == { RemoveSpacesAroundBlank(w1, w2); }
      FilterAlnum(w1 + w2);
    == { FilterAlnumAllAlnum(w1 + w2); }
      w1 + w2;
    }
  }

  /** A text folding to two alphanumeric words keeps them, one space apart, in comparison mode. */
  lemma {:induction false} NormalizeTwoWordsForComparison(t: string, w1: string, w2: string)
    requires Fold(t) == w1 + " " + w2 && w1 != "" && w2 != ""
    requires forall i :: 0 <= i < |w1| ==> IsAlnum(w1[i])
    requires forall i :: 0 <= i < |w2| ==> IsAlnum(w2[i])
    ensures NormalizeForEmail(t, true) == w1 + " " + w2
  {
    assert |Fold(t)| == |t|;
    assert NormalizeForEmail(t, true) == FilterAlnumOrSpace(Join(Split(w1 + " " + w2)));
    AlnumIsWord(w1);
    AlnumIsWord(w2);
    SplitTwoWords(w1, w2);
    assert [w1, w2][1..] == [w2];
    assert Join([w1, w2]) == w1 + " " + w2;
    FilterAlnumOrSpaceAroundBlank(w1, w2);
  }

  lemma {:induction false} AlnumIsWord(w: string)
    requires w != "" && forall i :: 0 <= i < |w| ==> IsAlnum(w[i])
    ensures IsWord(w)
  {
  }

  /** "María José" becomes "mariajose" in address mode and "maria jose" in comparison mode. */
  lemma {:induction false} NormalizeExample(t: string)
    requires t == "María José"
    ensures NormalizeForEmail(t, false) == "mariajose"
    ensures NormalizeForEmail(t, true) == "maria jose"
  {
    FoldMariaJose(t);
    NormalizeTwoWordsForAddress(t, "maria", "jose");
    NormalizeTwoWordsForComparison(t, "maria", "jose");
  }

  // ------------------------------------------------------------------
  // Comparison keys (`_normalize_name_for_comparison*`)
  // ------------------------------------------------------------------

  /** The words of a name after comparison-mode normalisation, unsorted. */
  function ComparisonTokens(text: string): seq<string> {
    Split(NormalizeForEmail(text, true))
  }

  /** `_normalize_name_for_comparison_from_display`: the sorted tokens, space-joined. */
  function ComparisonKeyFromDisplay(displayName: string): string {
    Join(Sort(ComparisonTokens(displayName)))
  }

  /** `_normalize_name_for_comparison`: the same key, built from the two name fields. */
  function ComparisonKey(fullName: string, fullLastName: string): string {
    Join(Sort(ComparisonTokens(fullName + " " + fullLastName)))
  }

  /** Each word reduced to its alphanumerics, words left empty dropped. */
  function CleanTokens(ws: seq<string>): seq<string> {
    if ws == [] then []
    else
      var w := FilterAlnum(ws[0]);
      (if w == "" then [] else [w]) + CleanTokens(ws[1..])
  }

  lemma {:induction false} CleanTokensConcat(a: seq<string>, b: seq<string>)
    ensures CleanTokens(a + b) == CleanTokens(a) + CleanTokens(b)
  {
    if a != [] {
      assert (a + b)[1..] == a[1..] + b;
      CleanTokensConcat(a[1..], b);
    } else {
      assert a + b == b;
    }
  }

  lemma {:induction false} MultisetRemoveAt(a: seq<string>, b: seq<string>, j: nat)
    requires multiset(a) == multiset(b) && a != [] && j < |b| && b[j] == a[0]
    ensures multiset(a[1..]) == multiset(b[..j] + b[j + 1..])
  {
    assert a == [a[0]] + a[1..];
    assert b == b[..j] + [b[j]] + b[j + 1..];
    assert multiset(a[1..]) == multiset(a) - multiset{a[0]};
    assert multiset(b[..j] + b[j + 1..]) == multiset(b) - multiset{a[0]};
  }

  /** Cleaning a sequence with one element taken out, and that element alone. */
  lemma {:induction false} CleanTokensRemoveAt(b: seq<string>, j: nat)
    requires j < |b|
    ensures multiset(CleanTokens(b))
         == multiset(CleanTokens([b[j]])) + multiset(CleanTokens(b[..j] + b[j + 1..]))
  {
    assert b == b[..j] + ([b[j]] + b[j + 1..]);
    CleanTokensRemoveParts(b, b[..j], b[j], b[j + 1..]);
  }

  lemma {:induction false} CleanTokensRemoveParts(b: seq<string>, left: seq<string>, x: string, right: seq<string>)
    requires b == left + ([x] + right)
    ensures multiset(CleanTokens(b)) == multiset(CleanTokens([x])) + multiset(CleanTokens(left + right))
  {
    CleanTokensConcat(left, [x] + right);
    CleanTokensConcat([x], right);
    CleanTokensConcat(left, right);
    MultisetMiddle(CleanTokens(left), CleanTokens([x]), CleanTokens(right));
  }

  lemma {:induction false} MultisetMiddle(l: seq<string>, m: seq<string>, r: seq<string>)
    ensures multiset(l + (m + r)) == multiset(m) + multiset(l + r)
  {
  }

  /** Reordering the words does not change the multiset of cleaned tokens. */
  lemma {:induction false} CleanTokensPermutation(a: seq<string>, b: seq<string>)
    requires multiset(a) == multiset(b)
    ensures multiset(CleanTokens(a)) == multiset(CleanTokens(b))
  {
    if a == [] {
      assert |multiset(b)| == 0;
      assert b == [];
    } else {
      assert a[0] in multiset(b);
      var j :| 0 <= j < |b| && b[j] == a[0];
      MultisetRemoveAt(a, b, j);
      CleanTokensPermutation(a[1..], b[..j] + b[j + 1..]);
      CleanTokensRemoveAt(b, j);
      CleanTokensRemoveAt(a, 0);
      assert a[..0] + a[1..] == a[1..];
    }
  }

  lemma {:induction false} FilterAlnumConcat(a: string, b: string)
    ensures FilterAlnum(a + b) == FilterAlnum(a) + FilterAlnum(b)
  {
    if a != [] {
      assert (a + b)[1..] == a[1..] + b;
      FilterAlnumConcat(a[1..], b);
    } else {
      assert a + b == b;
    }
  }

  lemma {:induction false} FilterAlnumOrSpaceConcat(a: string, b: string)
    ensures FilterAlnumOrSpace(a + b) == FilterAlnumOrSpace(a) + FilterAlnumOrSpace(b)
  {
    if a != [] {
      assert (a + b)[1..] == a[1..] + b;
      FilterAlnumOrSpaceConcat(a[1..], b);
    } else {
      assert a + b == b;
    }
  }

  lemma {:induction false} FilterAlnumOrSpaceOfWord(w: string)
    requires NoSpace(w)
    ensures FilterAlnumOrSpace(w) == FilterAlnum(w)
  {
    if w != [] {
      FilterAlnumOrSpaceOfWord(w[1..]);
    }
  }

  lemma {:induction false} FilterAlnumNoSpace(w: string)
    ensures NoSpace(FilterAlnum(w))
  {
    FilterAlnumChars(w);
    var f := FilterAlnum(w);
    forall i | 0 <= i < |f|
      ensures !IsSpace(f[i])
    {
      assert f[i] in f;
    }
  }

  /** Comparison-mode filtering of the space-joined words, split again, is `CleanTokens`. */
  lemma {:induction false} SplitFilterJoin(ws: seq<string>)
    requires forall i :: 0 <= i < |ws| ==> IsWord(ws[i])
    ensures Split(FilterAlnumOrSpace(Join(ws))) == CleanTokens(ws)
  {
    if |ws| == 1 {
      FilterAlnumOrSpaceOfWord(ws[0]);
      FilterAlnumNoSpace(ws[0]);
      SplitOfNoSpace(FilterAlnum(ws[0]));
      assert CleanTokens(ws) == CleanTokens([ws[0]]) + CleanTokens([]) by {
        assert ws == [ws[0]] + [];
      }
    } else if |ws| > 1 {
      var w, rest := ws[0], ws[1..];
      assert Join(ws) == w + [' '] + Join(rest);
      FilterAlnumOrSpaceConcat(w + [' '], Join(rest));
      FilterAlnumOrSpaceConcat(w, [' ']);
      FilterAlnumOrSpaceOfWord(w);
      FilterAlnumNoSpace(w);
      assert FilterAlnumOrSpace([' ']) == [' '];
      SplitAroundSpace(FilterAlnum(w), ' ', FilterAlnumOrSpace(Join(rest)));
      SplitOfNoSpace(FilterAlnum(w));
      SplitFilterJoin(rest);
    }
  }

  /** The case- and accent-folded text, before any whitespace handling. */
  function Fold(text: string): string {
    StripAccents(Lower(text))
  }

  /** The comparison tokens are the folded words, each cleaned. */
  lemma {:induction false} ComparisonTokensAreClean(text: string)
    ensures ComparisonTokens(text) == CleanTokens(Split(Fold(text)))
  {
    if text != "" {
      SplitFilterJoin(Split(Fold(text)));
    }
  }

  lemma {:induction false} FoldAroundSpace(a: string, b: string)
    ensures Fold(a + " " + b) == Fold(a) + [' '] + Fold(b)
  {
    var s := a + " " + b;
    assert forall i :: 0 <= i < |s| ==> Fold(s)[i] == (Fold(a) + [' '] + Fold(b))[i];
  }

  /** The tokens of the two fields joined are the tokens of each field. */
  lemma {:induction false} ComparisonTokensOfFields(fullName: string, fullLastName: string)
    ensures ComparisonTokens(fullName + " " + fullLastName)
         == CleanTokens(Split(Fold(fullName))) + CleanTokens(Split(Fold(fullLastName)))
  {
    ComparisonTokensAreClean(fullName + " " + fullLastName);
    FoldAroundSpace(fullName, fullLastName);
    SplitAroundSpace(Fold(fullName), ' ', Fold(fullLastName));
    CleanTokensConcat(Split(Fold(fullName)), Split(Fold(fullLastName)));
  }

  /** The two-field key is the display-name key of the fields joined by a space. */
  lemma {:induction false} ComparisonKeyIsDisplayKey(fullName: string, fullLastName: string)
    ensures ComparisonKey(fullName, fullLastName) == ComparisonKeyFromDisplay(fullName + " " + fullLastName)
  {
  }

  /**
   * Two display names whose folded words are the same multiset have the same
   * key: word order never matters.
   */
  lemma {:induction false} ComparisonKeyWordOrder(d1: string, d2: string)
    requires multiset(Split(Fold(d1))) == multiset(Split(Fold(d2)))
    ensures ComparisonKeyFromDisplay(d1) == ComparisonKeyFromDisplay(d2)
  {
    ComparisonTokensAreClean(d1);
    ComparisonTokensAreClean(d2);
    CleanTokensPermutation(Split(Fold(d1)), Split(Fold(d2)));
    SortPermutationInvariant(ComparisonTokens(d1), ComparisonTokens(d2));
  }

  /** Swapping the given-name and family-name fields gives the same key. */
  lemma {:induction false} ComparisonKeySwap(fullName: string, fullLastName: string)
    ensures ComparisonKey(fullName, fullLastName) == ComparisonKey(fullLastName, fullName)
  {
    ComparisonTokensOfFields(fullName, fullLastName);
    ComparisonTokensOfFields(fullLastName, fullName);
    var a, b := CleanTokens(Split(Fold(fullName))), CleanTokens(Split(Fold(fullLastName)));
    assert multiset(a + b) == multiset(b + a);
    SortPermutationInvariant(a + b, b + a);
  }

  /** The key's words are the name's tokens, in sorted order. */
  lemma {:induction false} ComparisonKeySortedTokens(displayName: string)
    ensures Split(ComparisonKeyFromDisplay(displayName)) == Sort(ComparisonTokens(displayName))
    ensures Sorted(Split(ComparisonKeyFromDisplay(displayName)))
    ensures multiset(Split(ComparisonKeyFromDisplay(displayName))) == multiset(ComparisonTokens(displayName))
  {
    var ts := ComparisonTokens(displayName);
    SortCorrect(ts);
    forall i | 0 <= i < |Sort(ts)|
      ensures IsWord(Sort(ts)[i])
    {
      assert Sort(ts)[i] in multiset(ts);
    }
    SplitJoin(Sort(ts));
  }

  lemma {:induction false} TwoWordTokens(t: string, w1: string, w2: string)
    requires IsWord(w1) && IsWord(w2) && t == w1 + " " + w2
    requires forall i :: 0 <= i < |w1| ==> IsAlnum(w1[i])
    requires forall i :: 0 <= i < |w2| ==> IsAlnum(w2[i])
    ensures CleanTokens(Split(t)) == [w1, w2]
  {
    SplitTwoWords(w1, w2);
    FilterAlnumAllAlnum(w1);
    FilterAlnumAllAlnum(w2);
    assert [w1, w2][1..] == [w2];
    assert [w2][1..] == [];
    assert CleanTokens([w2]) == [w2];
    assert CleanTokens([w1, w2]) == [w1] + CleanTokens([w2]);
  }

  lemma {:induction false} FoldLauraSofia(t: string)
    requires t == "Laura Sofia"
    ensures Fold(t) == "laura sofia"
  {
  }

  lemma {:induction false} FoldBecerraSandoval(t: string)
    requires t == "Becerra Sandoval"
    ensures Fold(t) == "becerra sandoval"
  {
  }

  lemma {:induction false} SortFourNames()
    ensures Sort(["laura", "sofia", "becerra", "sandoval"]) == ["becerra", "laura", "sandoval", "sofia"]
  {
  }

  lemma {:induction false} JoinFourNames(ws: seq<string>)
    requires ws == ["becerra", "laura", "sandoval", "sofia"]
    ensures Join(ws) == "becerra laura sandoval sofia"
  {
    assert Join(ws[3..]) == "sofia";
    assert Join(ws[2..]) == "sandoval" + " " + Join(ws[3..]);
    assert Join(ws[1..]) == "laura" + " " + Join(ws[2..]);
    assert Join(ws) == "becerra" + " " + Join(ws[1..]);
  }

  lemma {:induction false} FieldTokens(text: string, w1: string, w2: string)
    requires Fold(text) == w1 + " " + w2 && IsWord(w1) && IsWord(w2)
    requires forall i :: 0 <= i < |w1| ==> IsAlnum(w1[i])
    requires forall i :: 0 <= i < |w2| ==> IsAlnum(w2[i])
    ensures CleanTokens(Split(Fold(text))) == [w1, w2]
  {
    TwoWordTokens(Fold(text), w1, w2);
  }

  /**
   * Helpers for the examples: the tokens of each folded field, each proved in
   * a context of its own.
   */
  lemma {:induction false} GivenNameTokens(fullName: string)
    requires Fold(fullName) == "laura sofia"
    ensures CleanTokens(Split(Fold(fullName))) == ["laura", "sofia"]
  {
    FieldTokens(fullName, "laura", "sofia");
  }

  lemma {:induction false} FamilyNameTokens(fullLastName: string)
    requires Fold(fullLastName) == "becerra sandoval"
    ensures CleanTokens(Split(Fold(fullLastName))) == ["becerra", "sandoval"]
  {
    FieldTokens(fullLastName, "becerra", "sandoval");
  }

  lemma {:induction false} TokensOfFields(fullName: string, fullLastName: string, a: seq<string>, b: seq<string>)
    requires CleanTokens(Split(Fold(fullName))) == a && CleanTokens(Split(Fold(fullLastName))) == b
    ensures ComparisonTokens(fullName + " " + fullLastName) == a + b
  {
    ComparisonTokensOfFields(fullName, fullLastName);
  }

  /** The key of "Laura Sofia" / "Becerra Sandoval" is "becerra laura sandoval sofia". */
  lemma {:induction false} ComparisonKeyExample(fullName: string, fullLastName: string)
    requires fullName == "Laura Sofia" && fullLastName == "Becerra Sandoval"
    ensures ComparisonKey(fullName, fullLastName) == "becerra laura sandoval sofia"
  {
    FoldLauraSofia(fullName);
    FoldBecerraSandoval(fullLastName);
    FoldedExampleKey(fullName, fullLastName);
  }

  lemma {:induction false} FoldedExampleKey(fullName: string, fullLastName: string)
    requires Fold(fullName) == "laura sofia" && Fold(fullLastName) == "becerra sandoval"
    ensures ComparisonKey(fullName, fullLastName) == "becerra laura sandoval sofia"
  {
    GivenNameTokens(fullName);
    FamilyNameTokens(fullLastName);
    TokensOfFields(fullName, fullLastName, ["laura", "sofia"], ["becerra", "sandoval"]);
    assert ["laura", "sofia"] + ["becerra", "sandoval"] == ["laura", "sofia", "becerra", "sandoval"];
    SortFourNames();
    JoinFourNames(["becerra", "laura", "sandoval", "sofia"]);
    KeyOfTokens(fullName, fullLastName, ["laura", "sofia", "becerra", "sandoval"],
                ["becerra", "laura", "sandoval", "sofia"], "becerra laura sandoval sofia");
  }

  lemma {:induction false} KeyOfTokens(fullName: string, fullLastName: string, tokens: seq<string>,
                                       sorted: seq<string>, key: string)
    requires ComparisonTokens(fullName + " " + fullLastName) == tokens
    requires Sort(tokens) == sorted && Join(sorted) == key
    ensures ComparisonKey(fullName, fullLastName) == key
  {
  }

  // ------------------------------------------------------------------
  // Roster index (`load_existing_users`)
  // ------------------------------------------------------------------

  /** Entries with an empty address or display name are skipped. */
  predicate Loadable(info: UserInfo) {
    info.email != "" && info.displayName != ""
  }

  function RosterKey(info: UserInfo): string {
    ComparisonKeyFromDisplay(info.displayName)
  }

  /** The roster index after loading `infos` over `index`, in order: the last write wins. */
  function IndexRoster(index: map<string, string>, infos: seq<UserInfo>): map<string, string>
    decreases |infos|
  {
    if infos == [] then index
    else
      var before := IndexRoster(index, infos[..|infos| - 1]);
      var info := infos[|infos| - 1];
      if Loadable(info) then before[RosterKey(info) := Lower(info.email)] else before
  }

  /** The lower-cased addresses of the loadable entries. */
  function RosterEmails(infos: seq<UserInfo>): set<string>
    decreases |infos|
  {
    if infos == [] then {}
    else
      var info := infos[|infos| - 1];
      RosterEmails(infos[..|infos| - 1]) + (if Loadable(info) then {Lower(info.email)} else {})
  }

  /** Loading one more entry: its address under its key, when it has both. */
  lemma {:induction false} LoadStep(index: map<string, string>, infos: seq<UserInfo>, k: nat)
    requires k < |infos|
    ensures Loadable(infos[k]) <==> Lower(infos[k].email) != "" && infos[k].displayName != ""
    ensures IndexRoster(index, infos[..k + 1])
         == if Loadable(infos[k]) then IndexRoster(index, infos[..k])[RosterKey(infos[k]) := Lower(infos[k].email)]
            else IndexRoster(index, infos[..k])
    ensures RosterEmails(infos[..k + 1])
         == RosterEmails(infos[..k]) + (if Loadable(infos[k]) then {Lower(infos[k].email)} else {})
  {
    assert infos[..k + 1][..k] == infos[..k];
    assert |Lower(infos[k].email)| == |infos[k].email|;
  }

  /** A key maps to the address of the last loadable entry with that key. */
  lemma {:induction false} RosterLastWriteWins(index: map<string, string>, infos: seq<UserInfo>, i: nat)
    requires i < |infos| && Loadable(infos[i])
    requires forall j :: i < j < |infos| && Loadable(infos[j]) ==> RosterKey(infos[j]) != RosterKey(infos[i])
    ensures RosterKey(infos[i]) in IndexRoster(index, infos)
    ensures IndexRoster(index, infos)[RosterKey(infos[i])] == Lower(infos[i].email)
    decreases |infos|
  {
    if i < |infos| - 1 {
      var init := infos[..|infos| - 1];
      assert init[i] == infos[i];
      RosterLastWriteWins(index, init, i);
    }
  }

  /** Keys that no loadable entry produces keep their old binding (or stay absent). */
  lemma {:induction false} RosterOtherKeys(index: map<string, string>, infos: seq<UserInfo>, k: string)
    requires forall j :: 0 <= j < |infos| && Loadable(infos[j]) ==> RosterKey(infos[j]) != k
    ensures (k in IndexRoster(index, infos)) == (k in index)
    ensures k in index ==> IndexRoster(index, infos)[k] == index[k]
    decreases |infos|
  {
    if infos != [] {
      var init := infos[..|infos| - 1];
      assert forall j :: 0 <= j < |init| ==> init[j] == infos[j];
      RosterOtherKeys(index, init, k);
    }
  }

  /** A loaded address is the lower-cased address of some loadable entry, and conversely. */
  lemma {:induction false} RosterEmailsMembers(infos: seq<UserInfo>, e: string)
    ensures e in RosterEmails(infos) <==>
      exists j :: 0 <= j < |infos| && Loadable(infos[j]) && Lower(infos[j].email) == e
    decreases |infos|
  {
    if infos != [] {
      var init := infos[..|infos| - 1];
      RosterEmailsMembers(init, e);
      assert forall j :: 0 <= j < |init| ==> init[j] == infos[j];
      if e in RosterEmails(init) {
        var j :| 0 <= j < |init| && Loadable(init[j]) && Lower(init[j].email) == e;
        assert infos[j] == init[j];
      }
    }
  }

  /** Every bound address in the index is non-empty once every old one is. */
  lemma {:induction false} RosterValuesNonEmpty(index: map<string, string>, infos: seq<UserInfo>)
    requires forall k | k in index :: index[k] != ""
    ensures forall k | k in IndexRoster(index, infos) :: IndexRoster(index, infos)[k] != ""
    decreases |infos|
  {
    if infos != [] {
      RosterValuesNonEmpty(index, infos[..|infos| - 1]);
      var info := infos[|infos| - 1];
      assert |Lower(info.email)| == |info.email|;
    }
  }

  // ------------------------------------------------------------------
  // The allocation ladder (`generate_email`)
  // ------------------------------------------------------------------

  /** `n(first) + "." + n(last)`, the local part of the base address. */
  function BaseLocal(firstName: string, firstLastName: string): string {
    NormalizeForEmail(firstName, false) + "." + NormalizeForEmail(firstLastName, false)
  }

  /** The normalised second surname, or "" when there is none. */
  function SecondSurname(secondLastName: string): string {
    if secondLastName != "" then NormalizeForEmail(secondLastName, false) else ""
  }

  /**
   * Every candidate in the order they are tried: the base, the base followed by
   * each prefix of the second surname (shortest first), then the base followed
   * by 1, 2, ..., 9999.
   */
  function Ladder(base: string, second: string, domain: string): (r: seq<string>)
    ensures |r| == 1 + |second| + MaxCounter
    ensures r[0] == base + "@" + domain
    ensures forall i :: 1 <= i <= |second| ==> r[i] == base + second[..i] + "@" + domain
    ensures forall k :: 1 <= k <= MaxCounter ==> r[|second| + k] == base + Decimal(k) + "@" + domain
  {
    [base + "@" + domain]
    + seq(|second|, i requires 0 <= i < |second| => base + second[..i + 1] + "@" + domain)
    + seq(MaxCounter, k requires 0 <= k < MaxCounter => base + Decimal(k + 1) + "@" + domain)
  }

  /** `not _is_available(email)`: the lower-cased address is already known. */
  predicate Taken(existing: set<string>, batch: set<string>, email: string) {
    Lower(email) in existing || Lower(email) in batch
  }

  /** The index of the first candidate from `from` on that is not taken. */
  function FirstAvailable(cands: seq<string>, existing: set<string>, batch: set<string>, from: nat): (r: Option<nat>)
    requires from <= |cands|
    ensures r.Some? ==> from <= r.value < |cands| && !Taken(existing, batch, cands[r.value])
    ensures r.Some? ==> forall j :: from <= j < r.value ==> Taken(existing, batch, cands[j])
    ensures r.None? ==> forall j :: from <= j < |cands| ==> Taken(existing, batch, cands[j])
    decreases |cands| - from
  {
    if from == |cands| then None
    else if !Taken(existing, batch, cands[from]) then Some(from)
    else FirstAvailable(cands, existing, batch, from + 1)
  }

  /** The index of the first available candidate is determined by which candidates are taken. */
  lemma {:induction false} FirstAvailableAt(cands: seq<string>, existing: set<string>, batch: set<string>, k: nat)
    requires k < |cands| && !Taken(existing, batch, cands[k])
    requires forall j :: 0 <= j < k ==> Taken(existing, batch, cands[j])
    ensures FirstAvailable(cands, existing, batch, 0) == Some(k)
  {
  }

  /** No candidate is available once every one is taken. */
  lemma {:induction false} FirstAvailableNone(cands: seq<string>, existing: set<string>, batch: set<string>)
    requires forall j :: 0 <= j < |cands| ==> Taken(existing, batch, cands[j])
    ensures FirstAvailable(cands, existing, batch, 0) == None
  {
  }

  /** The message of the exhaustion error. */
  function ExhaustedMessage(firstName: string, firstLastName: string): string {
    "No se pudo generar email único para " + firstName + " " + firstLastName
  }

  /** What `generate_email` returns (or raises) given the two address sets at call time. */
  function Allocate(existing: set<string>, batch: set<string>, domain: string,
                    firstName: string, firstLastName: string, secondLastName: string): Result<string, string>
  {
    Pick(Ladder(BaseLocal(firstName, firstLastName), SecondSurname(secondLastName), domain),
         existing, batch, ExhaustedMessage(firstName, firstLastName))
  }

  /** The first free candidate of a ladder, or the given error when none is free. */
  function Pick(ladder: seq<string>, existing: set<string>, batch: set<string>, failure: string): Result<string, string> {
    match FirstAvailable(ladder, existing, batch, 0)
    case Some(k) => Ok(ladder[k])
    case None => Err(failure)
  }

  /** A ladder whose first free candidate is at `k` yields that candidate. */
  lemma {:induction false} PickAt(ladder: seq<string>, existing: set<string>, batch: set<string>, failure: string, k: nat)
    requires k < |ladder| && !Taken(existing, batch, ladder[k])
    requires forall j :: 0 <= j < k ==> Taken(existing, batch, ladder[j])
    ensures Pick(ladder, existing, batch, failure) == Ok(ladder[k])
  {
    FirstAvailableAt(ladder, existing, batch, k);
  }

  /** A ladder whose every candidate is taken yields the error. */
  lemma {:induction false} PickNone(ladder: seq<string>, existing: set<string>, batch: set<string>, failure: string)
    requires forall j :: 0 <= j < |ladder| ==> Taken(existing, batch, ladder[j])
    ensures Pick(ladder, existing, batch, failure) == Err(failure)
  {
    FirstAvailableNone(ladder, existing, batch);
  }

  /** The returned address, lower-cased, was neither pre-existing nor allocated in this batch. */
  lemma {:induction false} AllocateIsFresh(existing: set<string>, batch: set<string>, domain: string,
                        firstName: string, firstLastName: string, secondLastName: string)
    requires Allocate(existing, batch, domain, firstName, firstLastName, secondLastName).Ok?
    ensures var a := Allocate(existing, batch, domain, firstName, firstLastName, secondLastName).value;
      Lower(a) !in existing && Lower(a) !in batch
  {
  }

  /**
   * Ladder order: the result is the first candidate of the ladder that is free,
   * and every candidate before it was taken; the error is raised exactly when
   * every candidate, counters 1 to 9999 included, is taken.
   */
  lemma {:induction false} AllocateLadderOrder(existing: set<string>, batch: set<string>, domain: string,
                            firstName: string, firstLastName: string, secondLastName: string)
    ensures var ladder := Ladder(BaseLocal(firstName, firstLastName), SecondSurname(secondLastName), domain);
      match Allocate(existing, batch, domain, firstName, firstLastName, secondLastName)
      case Ok(a) => exists k :: 0 <= k < |ladder| && a == ladder[k] && !Taken(existing, batch, a)
                      && forall j :: 0 <= j < k ==> Taken(existing, batch, ladder[j])
      case Err(_) => forall j :: 0 <= j < |ladder| ==> Taken(existing, batch, ladder[j])
  {
  }

  /** The base address is returned whenever it is free. */
  lemma {:induction false} AllocateBaseFirst(existing: set<string>, batch: set<string>, domain: string,
                          firstName: string, firstLastName: string, secondLastName: string)
    requires !Taken(existing, batch, BaseLocal(firstName, firstLastName) + "@" + domain)
    ensures Allocate(existing, batch, domain, firstName, firstLastName, secondLastName)
         == Ok(BaseLocal(firstName, firstLastName) + "@" + domain)
  {
    var ladder := Ladder(BaseLocal(firstName, firstLastName), SecondSurname(secondLastName), domain);
    FirstAvailableAt(ladder, existing, batch, 0);
  }

  /** With the base and the shorter prefixes taken, the next free prefix of the second surname wins. */
  lemma {:induction false} AllocateSurnamePrefix(existing: set<string>, batch: set<string>, domain: string,
                              firstName: string, firstLastName: string, secondLastName: string, i: nat)
    requires var second := SecondSurname(secondLastName);
      var base := BaseLocal(firstName, firstLastName);
      && 1 <= i <= |second|
      && Taken(existing, batch, base + "@" + domain)
      && (forall p :: 1 <= p < i ==> Taken(existing, batch, base + second[..p] + "@" + domain))
      && !Taken(existing, batch, base + second[..i] + "@" + domain)
    ensures Allocate(existing, batch, domain, firstName, firstLastName, secondLastName)
         == Ok(BaseLocal(firstName, firstLastName) + SecondSurname(secondLastName)[..i] + "@" + domain)
  {
    var ladder := Ladder(BaseLocal(firstName, firstLastName), SecondSurname(secondLastName), domain);
    FirstAvailableAt(ladder, existing, batch, i);
  }

  /**
   * An address other than the base and the second-surname candidates is only
   * returned when the base and every second-surname candidate are taken, and it
   * then carries a counter between 1 and 9999.
   */
  lemma {:induction false} AllocateNumericOnlyAfterLetters(existing: set<string>, batch: set<string>, domain: string,
                                        firstName: string, firstLastName: string, secondLastName: string)
    requires var r := Allocate(existing, batch, domain, firstName, firstLastName, secondLastName);
      var second := SecondSurname(secondLastName);
      var base := BaseLocal(firstName, firstLastName);
      && r.Ok?
      && r.value != base + "@" + domain
      && forall p :: 1 <= p <= |second| ==> r.value != base + second[..p] + "@" + domain
    ensures var second := SecondSurname(secondLastName);
      var base := BaseLocal(firstName, firstLastName);
      && Taken(existing, batch, base + "@" + domain)
      && (forall p :: 1 <= p <= |second| ==> Taken(existing, batch, base + second[..p] + "@" + domain))
      && exists k :: 1 <= k <= MaxCounter
           && Allocate(existing, batch, domain, firstName, firstLastName, secondLastName).value
              == base + Decimal(k) + "@" + domain
  {
    var second := SecondSurname(secondLastName);
    var base := BaseLocal(firstName, firstLastName);
    var ladder := Ladder(base, second, domain);
    var k := FirstAvailable(ladder, existing, batch, 0).value;
    var r := ladder[k];
    forall i | 0 <= i <= |second|
      ensures ladder[i] != r
    {
      if i == 0 {
        assert ladder[0] == base + "@" + domain;
      } else {
        assert ladder[i] == base + second[..i] + "@" + domain;
      }
    }
    assert k > |second|;
    assert ladder[|second| + (k - |second|)] == base + Decimal(k - |second|) + "@" + domain;
    forall p | 1 <= p <= |second|
      ensures Taken(existing, batch, base + second[..p] + "@" + domain)
    {
      assert ladder[p] == base + second[..p] + "@" + domain;
    }
  }

  /** A normalised address over a lower-case domain is its own lower-case form. */
  lemma {:induction false} AllocatedIsLowerCase(existing: set<string>, batch: set<string>, domain: string,
                             firstName: string, firstLastName: string, secondLastName: string)
    requires IsLowerCase(domain)
    requires Allocate(existing, batch, domain, firstName, firstLastName, secondLastName).Ok?
    ensures IsLowerCase(Allocate(existing, batch, domain, firstName, firstLastName, secondLastName).value)
  {
    var second := SecondSurname(secondLastName);
    var base := BaseLocal(firstName, firstLastName);
    var ladder := Ladder(base, second, domain);
    var k := FirstAvailable(ladder, existing, batch, 0).value;
    LadderIsLowerCase(firstName, firstLastName, secondLastName, domain, k);
  }

  lemma {:induction false} AddressCharsLowerCase(s: string)
    requires forall i :: 0 <= i < |s| ==> IsAddressChar(s[i]) || s[i] == '.' || s[i] == '@'
    ensures IsLowerCase(s)
  {
  }

  lemma {:induction false} LowerCaseConcat(a: string, b: string)
    requires IsLowerCase(a) && IsLowerCase(b)
    ensures IsLowerCase(a + b)
  {
    LowerConcat(a, b);
  }

  /** Only address characters, dots and at signs. */
  predicate AddressText(s: string) {
    forall i :: 0 <= i < |s| ==> IsAddressChar(s[i]) || s[i] == '.' || s[i] == '@'
  }

  lemma {:induction false} AddressTextConcat(a: string, b: string)
    requires AddressText(a) && AddressText(b)
    ensures AddressText(a + b)
  {
    forall i | 0 <= i < |a + b|
      ensures IsAddressChar((a + b)[i]) || (a + b)[i] == '.' || (a + b)[i] == '@'
    {
      if i >= |a| {
        assert (a + b)[i] == b[i - |a|];
      }
    }
  }

  /** The local part of the base address is address text. */
  lemma {:induction false} BaseLocalText(firstName: string, firstLastName: string)
    ensures AddressText(BaseLocal(firstName, firstLastName))
  {
    NormalizeForAddressChars(firstName);
    NormalizeForAddressChars(firstLastName);
    AddressTextConcat(NormalizeForEmail(firstName, false), ".");
    AddressTextConcat(NormalizeForEmail(firstName, false) + ".", NormalizeForEmail(firstLastName, false));
  }

  /** The normalised second surname is address text. */
  lemma {:induction false} SecondSurnameText(secondLastName: string)
    ensures AddressText(SecondSurname(secondLastName))
  {
    NormalizeForAddressChars(secondLastName);
  }

  /** A candidate built from address text and a lower-case domain is lower case. */
  lemma {:induction false} LadderEntryLowerCase(base: string, second: string, domain: string, k: nat)
    requires AddressText(base) && AddressText(second) && IsLowerCase(domain)
    requires k < 1 + |second| + MaxCounter
    ensures IsLowerCase(Ladder(base, second, domain)[k])
  {
    var local: string;
    if k == 0 {
      local := base + "@";
    } else if k <= |second| {
      local := base + second[..k] + "@";
      assert AddressText(second[..k]);
      AddressTextConcat(base, second[..k]);
    } else {
      var d := Decimal(k - |second|);
      local := base + d + "@";
      assert AddressText(d);
      AddressTextConcat(base, d);
    }
    assert Ladder(base, second, domain)[k] == local + domain;
    AddressTextConcat(local[..|local| - 1], "@");
    assert local == local[..|local| - 1] + "@";
    AddressCharsLowerCase(local);
    LowerCaseConcat(local, domain);
  }

  /** Every candidate of the ladder is lower case when the domain is. */
  lemma {:induction false} LadderIsLowerCase(firstName: string, firstLastName: string, secondLastName: string, domain: string, k: nat)
    requires IsLowerCase(domain)
    requires k < 1 + |SecondSurname(secondLastName)| + MaxCounter
    ensures IsLowerCase(Ladder(BaseLocal(firstName, firstLastName), SecondSurname(secondLastName), domain)[k])
  {
    BaseLocalText(firstName, firstLastName);
    SecondSurnameText(secondLastName);
    LadderEntryLowerCase(BaseLocal(firstName, firstLastName), SecondSurname(secondLastName), domain, k);
  }

  /** The batch after recording an allocated address: its lower-cased form. */
  function Record(batch: set<string>, address: string): set<string> {
    batch + {Lower(address)}
  }

  /** As written in `generate_email`: the address is recorded with the domain's own case. */
  function RecordAsWritten(batch: set<string>, address: string): set<string> {
    batch + {address}
  }

  /**
   * Over a lower-case domain, such as the default "ecr.edu.co", recording the
   * lower-cased address and recording it as written give the same batch.
   */
  lemma {:induction false} RecordAgreesOverLowerCaseDomain(existing: set<string>, batch: set<string>, domain: string,
                             firstName: string, firstLastName: string, secondLastName: string)
    requires IsLowerCase(domain)
    requires Allocate(existing, batch, domain, firstName, firstLastName, secondLastName).Ok?
    ensures var a := Allocate(existing, batch, domain, firstName, firstLastName, secondLastName).value;
      Record(batch, a) == RecordAsWritten(batch, a)
  {
    AllocatedIsLowerCase(existing, batch, domain, firstName, firstLastName, secondLastName);
  }

  /**
   * Within one batch an address is never handed out twice, for any two names
   * and any domain: not even one differing only in case.
   */
  lemma {:induction false} AllocateNeverRepeats(existing: set<string>, batch: set<string>, domain: string,
                             f1: string, l1: string, s1: string, f2: string, l2: string, s2: string)
    requires Allocate(existing, batch, domain, f1, l1, s1).Ok?
    requires Allocate(existing, Record(batch, Allocate(existing, batch, domain, f1, l1, s1).value), domain, f2, l2, s2).Ok?
    ensures var a := Allocate(existing, batch, domain, f1, l1, s1).value;
      Lower(Allocate(existing, Record(batch, a), domain, f2, l2, s2).value) != Lower(a)
  {
    var a := Allocate(existing, batch, domain, f1, l1, s1).value;
    AllocateIsFresh(existing, Record(batch, a), domain, f2, l2, s2);
  }

  lemma {:induction false} LowerMixedCaseAddress(a: string)
    requires a == "laura.becerra@ECR.EDU.CO"
    ensures Lower(a) == "laura.becerra@ecr.edu.co"
  {
  }

  lemma {:induction false} NormalizeLauraBecerra(first: string, last: string)
    requires first == "Laura" && last == "Becerra"
    ensures BaseLocal(first, last) == "laura.becerra"
  {
    NormalizeLaura(first);
    NormalizeBecerra(last);
  }

  /**
   * As written, a domain that is not lower case defeats the batch check: with
   * domain "ECR.EDU.CO" and nothing taken, Laura Becerra receives
   * "laura.becerra@ECR.EDU.CO", and after recording it as written the next
   * Laura Becerra receives the very same address.
   */
  lemma {:induction false} AsWrittenRepeatsAddress(domain: string, first: string, last: string)
    requires domain == "ECR.EDU.CO" && first == "Laura" && last == "Becerra"
    ensures Allocate({}, {}, domain, first, last, "") == Ok("laura.becerra@ECR.EDU.CO")
    ensures Allocate({}, RecordAsWritten({}, "laura.becerra@ECR.EDU.CO"), domain, first, last, "")
         == Ok("laura.becerra@ECR.EDU.CO")
  {
    NormalizeLauraBecerra(first, last);
    var a := BaseLocal(first, last) + "@" + domain;
    assert a == "laura.becerra@ECR.EDU.CO";
    LowerMixedCaseAddress(a);
    AllocateBaseFirst({}, {}, domain, first, last, "");
    AllocateBaseFirst({}, RecordAsWritten({}, a), domain, first, last, "");
  }

  lemma {:induction false} LauraBecerraSandoval(first: string, last: string, second: string)
    requires first == "Laura" && last == "Becerra" && second == "Sandoval"
    ensures BaseLocal(first, last) == "laura.becerra" && SecondSurname(second) == "sandoval"
  {
    NormalizeLaura(first);
    NormalizeBecerra(last);
    NormalizeSandoval(second);
  }

  lemma {:induction false} NormalizeLaura(t: string)
    requires t == "Laura"
    ensures NormalizeForEmail(t, false) == "laura"
  {
    NormalizePlainName(t);
    LowerLaura(t);
  }

  /** Helper for the examples: the lower-case form of "Laura". */
  lemma {:induction false} LowerLaura(t: string)
    requires t == "Laura"
    ensures Lower(t) == "laura"
  {
  }

  lemma {:induction false} NormalizeBecerra(t: string)
    requires t == "Becerra"
    ensures NormalizeForEmail(t, false) == "becerra"
  {
    NormalizePlainName(t);
    LowerBecerra(t);
  }

  /** Helper for the examples: the lower-case form of "Becerra". */
  lemma {:induction false} LowerBecerra(t: string)
    requires t == "Becerra"
    ensures Lower(t) == "becerra"
  {
  }

  lemma {:induction false} NormalizeSandoval(t: string)
    requires t == "Sandoval"
    ensures NormalizeForEmail(t, false) == "sandoval"
  {
    NormalizePlainName(t);
    LowerSandoval(t);
  }

  /** Helper for the examples: the lower-case form of "Sandoval". */
  lemma {:induction false} LowerSandoval(t: string)
    requires t == "Sandoval"
    ensures Lower(t) == "sandoval"
  {
  }

  /** Scenario: with nothing taken, Laura Becerra Sandoval gets the base address. */
  lemma {:induction false} AllocateExampleFree(first: string, last: string, second: string)
    requires first == "Laura" && last == "Becerra" && second == "Sandoval"
    ensures Allocate({}, {}, DefaultDomain, first, last, second) == Ok("laura.becerra@ecr.edu.co")
  {
    LauraBecerraSandoval(first, last, second);
    AllocateBaseFirst({}, {}, DefaultDomain, first, last, second);
    assert "laura.becerra" + "@" + DefaultDomain == "laura.becerra@ecr.edu.co";
  }

  lemma {:induction false} ExampleAddressesLowerCase(a: string)
    requires a == "laura.becerra@ecr.edu.co" || a == "laura.becerras@ecr.edu.co" || a == "laura.becerrasa@ecr.edu.co"
    ensures Lower(a) == a
  {
    AddressCharsLowerCase(a);
  }

  lemma {:induction false} AllocateTwoLetterPrefix(existing: set<string>, first: string, last: string, second: string)
    requires var s := SecondSurname(second);
      var base := BaseLocal(first, last);
      && |s| >= 2
      && Taken(existing, {}, base + "@" + DefaultDomain)
      && Taken(existing, {}, base + s[..1] + "@" + DefaultDomain)
      && !Taken(existing, {}, base + s[..2] + "@" + DefaultDomain)
    ensures Allocate(existing, {}, DefaultDomain, first, last, second)
         == Ok(BaseLocal(first, last) + SecondSurname(second)[..2] + "@" + DefaultDomain)
  {
    var s, base := SecondSurname(second), BaseLocal(first, last);
    forall p | 1 <= p < 2
      ensures Taken(existing, {}, base + s[..p] + "@" + DefaultDomain)
    {
      assert p == 1;
    }
    AllocateSurnamePrefix(existing, {}, DefaultDomain, first, last, second, 2);
  }

  /**
   * Scenario: with the base and the one-letter prefix already in the
   * directory, the two-letter prefix of the second surname is allocated.
   */
  lemma {:induction false} AllocateExampleSecondPrefix(existing: set<string>, first: string, last: string, second: string)
    requires first == "Laura" && last == "Becerra" && second == "Sandoval"
    requires existing == {"laura.becerra@ecr.edu.co", "laura.becerras@ecr.edu.co"}
    ensures Allocate(existing, {}, DefaultDomain, first, last, second) == Ok("laura.becerrasa@ecr.edu.co")
  {
    LauraBecerraSandoval(first, last, second);
    ExampleLadderText(BaseLocal(first, last), SecondSurname(second));
    ExampleAddressesLowerCase("laura.becerra@ecr.edu.co");
    ExampleAddressesLowerCase("laura.becerras@ecr.edu.co");
    ExampleAddressesLowerCase("laura.becerrasa@ecr.edu.co");
    AllocateTwoLetterPrefix(existing, first, last, second);
  }

  /** The first three candidates of the example's ladder, spelled out. */
  lemma ExampleLadderText(base: string, s: string)
    requires base == "laura.becerra" && s == "sandoval"
    ensures |s| >= 2
    ensures base + "@" + DefaultDomain == "laura.becerra@ecr.edu.co"
    ensures base + s[..1] + "@" + DefaultDomain == "laura.becerras@ecr.edu.co"
    ensures base + s[..2] + "@" + DefaultDomain == "laura.becerrasa@ecr.edu.co"
  {
    assert s[..1] == "s" && s[..2] == "sa";
  }
  // ------------------------------------------------------------------
  // The generator object
  // ------------------------------------------------------------------

  /** Looking a person up in a roster index by their two name fields. */
  function RosterLookup(index: map<string, string>, fullName: string, fullLastName: string): Option<string> {
    var key := ComparisonKey(fullName, fullLastName);
    if key in index then Some(index[key]) else None
  }

  /** The lookup does not depend on which field holds the given names. */
  lemma {:induction false} RosterLookupSwap(index: map<string, string>, fullName: string, fullLastName: string)
    ensures RosterLookup(index, fullName, fullLastName) == RosterLookup(index, fullLastName, fullName)
  {
    ComparisonKeySwap(fullName, fullLastName);
  }

  /**
   * After loading a roster, a person whose key matches a loadable entry is
   * found with the address of the last such entry, lower-cased.
   */
  lemma {:induction false} RosterLookupAfterLoad(index: map<string, string>, infos: seq<UserInfo>, i: nat,
                              fullName: string, fullLastName: string)
    requires i < |infos| && Loadable(infos[i])
    requires RosterKey(infos[i]) == ComparisonKey(fullName, fullLastName)
    requires forall j :: i < j < |infos| && Loadable(infos[j]) ==> RosterKey(infos[j]) != RosterKey(infos[i])
    ensures RosterLookup(IndexRoster(index, infos), fullName, fullLastName) == Some(Lower(infos[i].email))
  {
    RosterLastWriteWins(index, infos, i);
  }

  /** A person matching no loadable entry and absent before is not found. */
  lemma {:induction false} RosterLookupMissing(index: map<string, string>, infos: seq<UserInfo>, fullName: string, fullLastName: string)
    requires ComparisonKey(fullName, fullLastName) !in index
    requires forall j :: 0 <= j < |infos| && Loadable(infos[j]) ==> RosterKey(infos[j]) != ComparisonKey(fullName, fullLastName)
    ensures RosterLookup(IndexRoster(index, infos), fullName, fullLastName) == None
  {
    RosterOtherKeys(index, infos, ComparisonKey(fullName, fullLastName));
  }

  /** `EmailGenerator`: the directory's addresses, this batch's addresses and the roster index. */
  class Generator {
    const domain: string
    var existingEmails: set<string>
    var generatedInBatch: set<string>
    var existingUsers: map<string, string>

    /** Every known address is stored lower-cased; every indexed address is non-empty. */
    ghost predicate Valid()
      reads this
    {
      && (forall e | e in existingEmails :: IsLowerCase(e))
      && (forall e | e in generatedInBatch :: IsLowerCase(e))
      && (forall k | k in existingUsers :: existingUsers[k] != "")
    }

    constructor(domain: string)
      ensures Valid()
      ensures this.domain == domain
      ensures existingEmails == {} && generatedInBatch == {} && existingUsers == map[]
    {
      this.domain := domain;
      existingEmails := {};
      generatedInBatch := {};
      existingUsers := map[];
    }

    /** `load_existing_emails`: replaces the directory's addresses by their lower-cased forms. */
    method LoadExistingEmails(emails: set<string>)
      requires Valid()
      modifies this`existingEmails
      ensures Valid()
      ensures existingEmails == set e | e in emails :: Lower(e)
    {
      existingEmails := set e | e in emails :: Lower(e);
      forall e | e in existingEmails
        ensures IsLowerCase(e)
      {
        var x :| x in emails && e == Lower(x);
        LowerIdempotent(x);
      }
    }

    /**
     * `load_existing_users`: indexes every entry with an address and a display
     * name under its comparison key (a later entry overwrites an earlier one
     * with the same key) and adds its lower-cased address to the known ones.
     */
    method LoadExistingUsers(infos: seq<UserInfo>)
      requires Valid()
      modifies this`existingEmails, this`existingUsers
      ensures Valid()
      ensures existingUsers == IndexRoster(old(existingUsers), infos)
      ensures existingEmails == old(existingEmails) + RosterEmails(infos)
    {
      var k := 0;
      while k < |infos|
        invariant 0 <= k <= |infos|
        invariant existingUsers == IndexRoster(old(existingUsers), infos[..k])
        invariant existingEmails == old(existingEmails) + RosterEmails(infos[..k])
        invariant Valid()
      {
        var info := infos[k];
        var email := Lower(info.email);
        LoadStep(old(existingUsers), infos, k);
        if email != "" && info.displayName != "" {
          LowerIdempotent(info.email);
          existingUsers := existingUsers[ComparisonKeyFromDisplay(info.displayName) := email];
          existingEmails := existingEmails + {email};
        }
        k := k + 1;
      }
      assert infos[..|infos|] == infos;
    }

    /** `check_existing_user`: the indexed address of a person with the same key, if any. */
    function CheckExistingUser(fullName: string, fullLastName: string): Option<string>
      reads this
    {
      RosterLookup(existingUsers, fullName, fullLastName)
    }

    /** `_is_available`: the lower-cased address is neither in the directory nor in this batch. */
    predicate IsAvailable(email: string)
      reads this
    {
      !Taken(existingEmails, generatedInBatch, email)
    }

    /**
     * `generate_email`: returns the first free candidate of the ladder and
     * records it in the batch, or fails once every counter up to 9999 is taken.
     */
    method GenerateEmail(firstName: string, firstLastName: string, secondLastName: string)
      returns (r: Result<string, string>)
      requires Valid()
      modifies this`generatedInBatch
      ensures Valid()
      ensures r == Allocate(existingEmails, old(generatedInBatch), domain, firstName, firstLastName, secondLastName)
      ensures r.Ok? ==> generatedInBatch == Record(old(generatedInBatch), r.value)
      ensures r.Err? ==> generatedInBatch == old(generatedInBatch)
      ensures existingEmails == old(existingEmails) && existingUsers == old(existingUsers)
    {
      var name := NormalizeForEmail(firstName, false);
      var lastName := NormalizeForEmail(firstLastName, false);
      var second := if secondLastName != "" then NormalizeForEmail(secondLastName, false) else "";
      var base := name + "." + lastName;
      r := GenerateFromLadder(base, second, ExhaustedMessage(firstName, firstLastName), Ladder(base, second, domain));
    }

    /** The candidates of `generate_email` in ladder order, from the base address on. */
    method GenerateFromLadder(base: string, second: string, failure: string, ghost ladder: seq<string>)
      returns (r: Result<string, string>)
      requires Valid()
      requires |ladder| == 1 + |second| + MaxCounter && ladder[0] == base + "@" + domain
      requires forall i :: 1 <= i <= |second| ==> ladder[i] == base + second[..i] + "@" + domain
      requires forall k :: 1 <= k <= MaxCounter ==> ladder[|second| + k] == base + Decimal(k) + "@" + domain
      modifies this`generatedInBatch
      ensures Valid()
      ensures r == Pick(ladder, existingEmails, old(generatedInBatch), failure)
      ensures r.Ok? ==> generatedInBatch == Record(old(generatedInBatch), r.value)
      ensures r.Err? ==> generatedInBatch == old(generatedInBatch)
    {
      var email := base + "@" + domain;
      if IsAvailable(email) {
        PickAt(ladder, existingEmails, generatedInBatch, failure, 0);
        Remember(email);
        return Ok(email);
      }
      r := GenerateWithSurname(base, second, failure, ladder);
    }

    /** Records an allocated address in the batch, lower-cased. */
    method Remember(email: string)
      requires Valid()
      modifies this`generatedInBatch
      ensures Valid()
      ensures generatedInBatch == Record(old(generatedInBatch), email)
    {
      LowerIdempotent(email);
      generatedInBatch := generatedInBatch + {Lower(email)};
    }

    /** The second-surname phase of `generate_email`, entered once the base is taken. */
    method GenerateWithSurname(base: string, second: string, failure: string, ghost ladder: seq<string>)
      returns (r: Result<string, string>)
      requires Valid()
      requires |ladder| == 1 + |second| + MaxCounter && Taken(existingEmails, generatedInBatch, ladder[0])
      requires forall i :: 1 <= i <= |second| ==> ladder[i] == base + second[..i] + "@" + domain
      requires forall k :: 1 <= k <= MaxCounter ==> ladder[|second| + k] == base + Decimal(k) + "@" + domain
      modifies this`generatedInBatch
      ensures Valid()
      ensures r == Pick(ladder, existingEmails, old(generatedInBatch), failure)
      ensures r.Ok? ==> generatedInBatch == Record(old(generatedInBatch), r.value)
      ensures r.Err? ==> generatedInBatch == old(generatedInBatch)
    {
      if second != "" {
        var i := 1;
        while i <= |second|
          invariant 1 <= i <= |second| + 1
          invariant forall j :: 0 <= j < i ==> Taken(existingEmails, generatedInBatch, ladder[j])
        {
          var candidate := base + second[..i] + "@" + domain;
          assert ladder[i] == candidate;
          if IsAvailable(candidate) {
            PickAt(ladder, existingEmails, generatedInBatch, failure, i);
            Remember(candidate);
            return Ok(candidate);
          }
          i := i + 1;
        }
      }
      r := GenerateWithCounter(base, second, failure, ladder);
    }

    /** The numeric phase of `generate_email`, entered once every letter candidate is taken. */
    method GenerateWithCounter(base: string, second: string, failure: string, ghost ladder: seq<string>)
      returns (r: Result<string, string>)
      requires Valid()
      requires |ladder| == 1 + |second| + MaxCounter
      requires forall k :: 1 <= k <= MaxCounter ==> ladder[|second| + k] == base + Decimal(k) + "@" + domain
      requires forall j :: 0 <= j <= |second| ==> Taken(existingEmails, generatedInBatch, ladder[j])
      modifies this`generatedInBatch
      ensures Valid()
      ensures r == Pick(ladder, existingEmails, old(generatedInBatch), failure)
      ensures r.Ok? ==> generatedInBatch == Record(old(generatedInBatch), r.value)
      ensures r.Err? ==> generatedInBatch == old(generatedInBatch)
    {
      var counter := 1;
      while true
        invariant 1 <= counter <= MaxCounter
        invariant forall j :: 0 <= j < |second| + counter ==> Taken(existingEmails, generatedInBatch, ladder[j])
        decreases MaxCounter - counter
      {
        var candidate := base + Decimal(counter) + "@" + domain;
        assert ladder[|second| + counter] == candidate;
        if IsAvailable(candidate) {
          PickAt(ladder, existingEmails, generatedInBatch, failure, |second| + counter);
          Remember(candidate);
          return Ok(candidate);
        }
        counter := counter + 1;
        if counter > MaxCounter {
          PickNone(ladder, existingEmails, generatedInBatch, failure);
          return Err(failure);
        }
      }
    }

    /** `reset_batch`: forgets the addresses handed out so far. */
    method ResetBatch()
      requires Valid()
      modifies this`generatedInBatch
      ensures Valid()
      ensures generatedInBatch == {}
      ensures existingEmails == old(existingEmails) && existingUsers == old(existingUsers)
    {
      generatedInBatch := {};
    }
  }
}
