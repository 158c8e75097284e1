/**
 * The Python string built-ins the system relies on (`lower`, `upper`, `strip`,
 * `split`, `join`, `title`, `sorted` on strings, `in`, `endswith`, `str(int)`),
 * over a modelled alphabet: ASCII plus the Spanish accented letters
 * á é í ó ú ñ ü and their capitals. Every other character is left unchanged by
 * case mapping, is not a letter and is not alphanumeric.
 */
module Text {

  // ------------------------------------------------------------------
  // Characters
  // ------------------------------------------------------------------

  /**
   * The whitespace characters `str.split()` and `str.strip()` act on: those
   * `str.isspace()` accepts, namely tab to carriage return, the four ASCII
   * separators 0x1C-0x1F, space, and the Unicode spaces and line separators.
   */
  predicate IsSpace(c: char) {
    ('\t' <= c <= '\r') || ('\U{1C}' <= c <= ' ') || c == '\U{85}' || c == '\U{A0}'
    || c == '\U{1680}' || ('\U{2000}' <= c <= '\U{200A}') || c == '\U{2028}' || c == '\U{2029}'
    || c == '\U{202F}' || c == '\U{205F}' || c == '\U{3000}'
  }

  predicate IsAsciiUpper(c: char) { 'A' <= c <= 'Z' }
  predicate IsAsciiLower(c: char) { 'a' <= c <= 'z' }
  predicate IsDigit(c: char) { '0' <= c <= '9' }

  predicate IsAccentedLower(c: char) {
    c == 'á' || c == 'é' || c == 'í' || c == 'ó' || c == 'ú' || c == 'ñ' || c == 'ü'
  }

  predicate IsAccentedUpper(c: char) {
    c == 'Á' || c == 'É' || c == 'Í' || c == 'Ó' || c == 'Ú' || c == 'Ñ' || c == 'Ü'
  }

  /** A cased character, in the sense of `str.title()`. */
  predicate IsLetter(c: char) {
    IsAsciiUpper(c) || IsAsciiLower(c) || IsAccentedLower(c) || IsAccentedUpper(c)
  }

  /** `str.isalnum()` on one character. */
  predicate IsAlnum(c: char) { IsLetter(c) || IsDigit(c) }

  /** `str.lower()` on one character. */
  function LowerChar(c: char): (r: char)
    ensures IsLetter(r) <==> IsLetter(c)
    ensures !IsAsciiUpper(r) && !IsAccentedUpper(r)
    ensures !IsLetter(c) ==> r == c
  {
    if IsAsciiUpper(c) then (c as int + 32) as char
    else if c == 'Á' then 'á'
    else if c == 'É' then 'é'
    else if c == 'Í' then 'í'
    else if c == 'Ó' then 'ó'
    else if c == 'Ú' then 'ú'
    else if c == 'Ñ' then 'ñ'
    else if c == 'Ü' then 'ü'
    else c
  }

  /** `str.upper()` on one character. */
  function UpperChar(c: char): (r: char)
    ensures IsLetter(r) <==> IsLetter(c)
    ensures !IsAsciiLower(r) && !IsAccentedLower(r)
    ensures !IsLetter(c) ==> r == c
  {
    if IsAsciiLower(c) then (c as int - 32) as char
    else if c == 'á' then 'Á'
    else if c == 'é' then 'É'
    else if c == 'í' then 'Í'
    else if c == 'ó' then 'Ó'
    else if c == 'ú' then 'Ú'
    else if c == 'ñ' then 'Ñ'
    else if c == 'ü' then 'Ü'
    else c
  }

  lemma {:induction false} LowerCharIdempotent(c: char)
    ensures LowerChar(LowerChar(c)) == LowerChar(c)
  {
  }

  lemma {:induction false} UpperCharIdempotent(c: char)
    ensures UpperChar(UpperChar(c)) == UpperChar(c)
  {
  }

  // ------------------------------------------------------------------
  // Case mapping on strings
  // ------------------------------------------------------------------

  function Lower(s: string): string {
    seq(|s|, i requires 0 <= i < |s| => LowerChar(s[i]))
  }

  function Upper(s: string): string {
    seq(|s|, i requires 0 <= i < |s| => UpperChar(s[i]))
  }

  /** A string that `str.lower()` leaves unchanged. */
  predicate IsLowerCase(s: string) { Lower(s) == s }

  lemma {:induction false} LowerConcat(a: string, b: string)
    ensures Lower(a + b) == Lower(a) + Lower(b)
  {
    assert forall i :: 0 <= i < |a + b| ==> Lower(a + b)[i] == (Lower(a) + Lower(b))[i];
  }

  lemma {:induction false} LowerIdempotent(s: string)
    ensures Lower(Lower(s)) == Lower(s)
  {
    forall i | 0 <= i < |s|
      ensures Lower(Lower(s))[i] == Lower(s)[i]
    {
      LowerCharIdempotent(s[i]);
    }
  }

  // ------------------------------------------------------------------
  // strip()
  // ------------------------------------------------------------------

  function StripLeft(s: string): (r: string)
    ensures |r| <= |s|
    decreases |s|
  {
    if s != [] && IsSpace(s[0]) then StripLeft(s[1..]) else s
  }

  function StripRight(s: string): (r: string)
    ensures |r| <= |s|
    decreases |s|
  {
    if s != [] && IsSpace(s[|s| - 1]) then StripRight(s[..|s| - 1]) else s
  }

  /** True when `s` neither starts nor ends with whitespace. */
  predicate IsStripped(s: string) {
    s == [] || (!IsSpace(s[0]) && !IsSpace(s[|s| - 1]))
  }

  /** `str.strip()`. */
  function Strip(s: string): string {
    StripRight(StripLeft(s))
  }

  lemma {:induction false} StripLeftShape(s: string)
    ensures StripLeft(s) == [] || !IsSpace(StripLeft(s)[0])
    ensures StripLeft(s) == s[|s| - |StripLeft(s)|..]
    decreases |s|
  {
    if s != [] && IsSpace(s[0]) {
      StripLeftShape(s[1..]);
    }
  }

  lemma {:induction false} StripRightShape(s: string)
    ensures StripRight(s) == [] || !IsSpace(StripRight(s)[|StripRight(s)| - 1])
    ensures StripRight(s) == s[..|StripRight(s)|]
    decreases |s|
  {
    if s != [] && IsSpace(s[|s| - 1]) {
      StripRightShape(s[..|s| - 1]);
    }
  }

  /** The result of `strip()` has no whitespace at either end. */
  lemma {:induction false} StripIsStripped(s: string)
    ensures IsStripped(Strip(s))
  {
    var l := StripLeft(s);
    StripLeftShape(s);
    StripRightShape(l);
    var r := StripRight(l);
    if r != [] {
      assert r == l[..|r|];
      assert r[0] == l[0];
    }
  }

  /** `strip()` leaves an already stripped string unchanged. */
  lemma {:induction false} StripStripped(s: string)
    requires IsStripped(s)
    ensures Strip(s) == s
  {
  }

  predicate IsSpaces(s: string) {
    forall i :: 0 <= i < |s| ==> IsSpace(s[i])
  }

  lemma {:induction false} StripLeftSpaces(pre: string, x: string)
    requires IsSpaces(pre)
    requires x == [] || !IsSpace(x[0])
    ensures StripLeft(pre + x) == x
    decreases |pre|
  {
    if pre == [] {
      assert pre + x == x;
    } else {
      assert (pre + x)[1..] == pre[1..] + x;
      StripLeftSpaces(pre[1..], x);
    }
  }

  lemma {:induction false} StripRightSpaces(x: string, post: string)
    requires IsSpaces(post)
    requires x == [] || !IsSpace(x[|x| - 1])
    ensures StripRight(x + post) == x
    decreases |post|
  {
    if post == [] {
      assert x + post == x;
    } else {
      var n := |post| - 1;
      assert (x + post)[..|x + post| - 1] == x + post[..n];
      StripRightSpaces(x, post[..n]);
    }
  }

  /** What `StripLeft` drops is whitespace. */
  lemma {:induction false} StripLeftDropsSpaces(s: string)
    ensures |StripLeft(s)| <= |s| && IsSpaces(s[..|s| - |StripLeft(s)|])
    decreases |s|
  {
    if s != [] && IsSpace(s[0]) {
      StripLeftDropsSpaces(s[1..]);
      var n := |s| - |StripLeft(s)|;
      assert s[..n] == [s[0]] + s[1..][..n - 1];
    }
  }

  /** What `StripRight` drops is whitespace. */
  lemma {:induction false} StripRightDropsSpaces(s: string)
    ensures IsSpaces(s[|StripRight(s)|..])
    decreases |s|
  {
    if s != [] && IsSpace(s[|s| - 1]) {
      var t := s[..|s| - 1];
      StripRightDropsSpaces(t);
      StripRightShape(t);
      assert s[|StripRight(s)|..] == t[|StripRight(t)|..] + [s[|s| - 1]];
    }
  }

  /**
   * `strip()` keeps one contiguous piece of the input and drops only
   * whitespace before and after it.
   */
  lemma {:induction false} StripCore(s: string)
    ensures var r := Strip(s);
      exists i :: 0 <= i <= |s| - |r| && s[i..i + |r|] == r && IsSpaces(s[..i]) && IsSpaces(s[i + |r|..])
  {
    var l := StripLeft(s);
    var r := StripRight(l);
    var i := |s| - |l|;
    StripLeftShape(s);
    StripLeftDropsSpaces(s);
    StripRightShape(l);
    StripRightDropsSpaces(l);
    assert l == s[i..];
    assert s[i..i + |r|] == l[..|r|];
    assert s[i + |r|..] == l[|r|..];
  }

  /** `strip()` removes exactly the surrounding whitespace of a stripped core. */
  lemma {:induction false} StripPadded(pre: string, w: string, post: string)
    requires IsSpaces(pre) && IsSpaces(post) && w != [] && IsStripped(w)
    ensures Strip(pre + w + post) == w
  {
    assert pre + w + post == pre + (w + post);
    StripLeftSpaces(pre, w + post);
    StripRightSpaces(w, post);
  }

  // ------------------------------------------------------------------
  // split() and ' '.join()
  // ------------------------------------------------------------------

  predicate NoSpace(w: string) {
    forall i :: 0 <= i < |w| ==> !IsSpace(w[i])
  }

  /** A word as `str.split()` produces it: non-empty and free of whitespace. */
  predicate IsWord(w: string) { w != [] && NoSpace(w) }

  /** Length of the leading run of non-whitespace characters. */
  function WordLen(s: string): (n: nat)
    ensures n <= |s|
    ensures NoSpace(s[..n])
    ensures n < |s| ==> IsSpace(s[n])
  {
    if s == [] || IsSpace(s[0]) then 0 else 1 + WordLen(s[1..])
  }

  /** `str.split()` with no separator: the maximal runs of non-whitespace. */
  function Split(s: string): (r: seq<string>)
    ensures forall i :: 0 <= i < |r| ==> IsWord(r[i])
    decreases |s|
  {
    if s == [] then []
    else if IsSpace(s[0]) then Split(s[1..])
    else
      var n := WordLen(s);
      [s[..n]] + Split(s[n..])
  }

  /** `' '.join(ws)`. */
  function Join(ws: seq<string>): string {
    if |ws| == 0 then ""
    else if |ws| == 1 then ws[0]
    else ws[0] + " " + Join(ws[1..])
  }

  /** `sep.join(ws)`. */
  function JoinWith(sep: string, ws: seq<string>): string {
    if |ws| == 0 then ""
    else if |ws| == 1 then ws[0]
    else ws[0] + sep + JoinWith(sep, ws[1..])
  }

  lemma {:induction false} WordLenPrefix(a: string, b: string)
    requires NoSpace(a)
    requires b == [] || IsSpace(b[0])
    ensures WordLen(a + b) == |a|
    decreases |a|
  {
    if a != [] {
      assert (a + b)[1..] == a[1..] + b;
      WordLenPrefix(a[1..], b);
    } else {
      assert a + b == b;
    }
  }

  lemma {:induction false} SplitOfNoSpace(w: string)
    requires NoSpace(w)
    ensures Split(w) == if w == [] then [] else [w]
  {
    if w != [] {
      WordLenPrefix(w, []);
      assert w + [] == w;
      assert w[|w|..] == [];
    }
  }

  /** Splitting around one whitespace character splits each side separately. */
  lemma {:induction false} SplitAroundSpace(a: string, c: char, b: string)
    requires IsSpace(c)
    ensures Split(a + [c] + b) == Split(a) + Split(b)
    decreases |a|
  {
    var s := a + [c] + b;
    if a == [] {
      assert s[0] == c && s[1..] == b;
    } else if IsSpace(a[0]) {
      assert s[0] == a[0] && s[1..] == a[1..] + [c] + b;
      SplitAroundSpace(a[1..], c, b);
    } else {
      var n := WordLen(a);
      assert NoSpace(a[..n]);
      assert a == a[..n] + a[n..];
      assert s == a[..n] + (a[n..] + [c] + b);
      WordLenPrefix(a[..n], a[n..] + [c] + b);
      assert WordLen(s) == n;
      assert s[..n] == a[..n];
      assert s[n..] == a[n..] + [c] + b;
      SplitAroundSpace(a[n..], c, b);
      assert Split(s) == [a[..n]] + Split(a[n..] + [c] + b);
    }
  }

  /** `split()` undoes `' '.join()` on words. */
  lemma {:induction false} SplitJoin(ws: seq<string>)
    requires forall i :: 0 <= i < |ws| ==> IsWord(ws[i])
    ensures Split(Join(ws)) == ws
  {
    if |ws| == 1 {
      SplitOfNoSpace(ws[0]);
    } else if |ws| > 1 {
      SplitAroundSpace(ws[0], ' ', Join(ws[1..]));
      assert ws[0] + " " + Join(ws[1..]) == ws[0] + [' '] + Join(ws[1..]);
      SplitOfNoSpace(ws[0]);
      SplitJoin(ws[1..]);
      assert ws == [ws[0]] + ws[1..];
    }
  }

  // ------------------------------------------------------------------
  // title()
  // ------------------------------------------------------------------

  /** `str.title()` with the state "the previous character was cased". */
  function TitleFrom(s: string, prevCased: bool): (r: string)
    ensures |r| == |s|
    decreases |s|
  {
    if s == [] then []
    else
      var c := s[0];
      var t := if !IsLetter(c) then c else if prevCased then LowerChar(c) else UpperChar(c);
      [t] + TitleFrom(s[1..], IsLetter(c))
  }

  /** `str.title()`: a letter is upper-cased after a non-letter and lower-cased after a letter. */
  function Title(s: string): string {
    TitleFrom(s, false)
  }

  lemma {:induction false} TitleFromAt(s: string, p: bool, i: nat)
    requires i < |s|
    ensures IsSpace(TitleFrom(s, p)[i]) <==> IsSpace(s[i])
    ensures IsLetter(TitleFrom(s, p)[i]) <==> IsLetter(s[i])
    decreases |s|
  {
    if i > 0 {
      TitleFromAt(s[1..], IsLetter(s[0]), i - 1);
    }
  }

  /** `title()` is idempotent. */
  lemma {:induction false} TitleFromIdempotent(s: string, p: bool)
    ensures TitleFrom(TitleFrom(s, p), p) == TitleFrom(s, p)
    decreases |s|
  {
    if s != [] {
      var t := TitleFrom(s, p);
      assert t[1..] == TitleFrom(s[1..], IsLetter(s[0]));
      LowerCharIdempotent(s[0]);
      UpperCharIdempotent(s[0]);
      TitleFromIdempotent(s[1..], IsLetter(s[0]));
    }
  }

  /** `title()` keeps a stripped string stripped. */
  lemma {:induction false} TitleKeepsStripped(s: string)
    requires IsStripped(s)
    ensures IsStripped(Title(s))
  {
    if s != [] {
      TitleFromAt(s, false, 0);
      TitleFromAt(s, false, |s| - 1);
    }
  }

  lemma {:induction false} UpperOfLowerChar(c: char)
    ensures UpperChar(LowerChar(c)) == UpperChar(c)
  {
  }

  /** `title()` does not depend on the case its input had. */
  lemma {:induction false} TitleFromLower(s: string, p: bool)
    ensures TitleFrom(Lower(s), p) == TitleFrom(s, p)
    decreases |s|
  {
    if s != [] {
      assert Lower(s)[1..] == Lower(s[1..]);
      LowerCharIdempotent(s[0]);
      UpperOfLowerChar(s[0]);
      TitleFromLower(s[1..], IsLetter(s[0]));
    }
  }

  /** The state `title()` is in after reading `a` from state `p`. */
  function CasedAfter(a: string, p: bool): bool {
    if a == [] then p else IsLetter(a[|a| - 1])
  }

  /** `title()` of a concatenation: the second part continues from the first part's state. */
  lemma {:induction false} TitleFromConcat(a: string, b: string, p: bool)
    ensures TitleFrom(a + b, p) == TitleFrom(a, p) + TitleFrom(b, CasedAfter(a, p))
    decreases |a|
  {
    if a == [] {
      assert a + b == b;
    } else {
      var t := a[1..];
      var q := IsLetter(a[0]);
      assert (a + b)[0] == a[0] && (a + b)[1..] == t + b;
      assert CasedAfter(t, q) == CasedAfter(a, p);
      TitleFromConcat(t, b, q);
      TitleConsStep(a[0], t, p, TitleFrom(t, q), TitleFrom(b, CasedAfter(a, p)));
    }
  }

  lemma {:induction false} TitleConsStep(c: char, t: string, p: bool, x: string, y: string)
    requires x == TitleFrom(t, IsLetter(c))
    ensures TitleFrom([c] + t, p) + y == TitleFrom([c] + t, p)[..1] + (x + y)
  {
    assert ([c] + t)[1..] == t;
  }

  /** A string that `title()` can start afresh on. */
  lemma {:induction false} TitleFromResets(s: string, p: bool)
    requires s == [] || !IsLetter(s[0])
    ensures TitleFrom(s, p) == TitleFrom(s, false)
  {
    if s != [] {
      assert TitleFrom(s, p) == [s[0]] + TitleFrom(s[1..], false);
    }
  }

  predicate IsLetters(s: string) {
    forall i :: 0 <= i < |s| ==> IsLetter(s[i])
  }

  lemma {:induction false} TitleFromAfterLetter(s: string)
    requires IsLetters(s)
    ensures TitleFrom(s, true) == Lower(s)
    decreases |s|
  {
    if s != [] {
      assert Lower(s)[1..] == Lower(s[1..]);
      TitleFromAfterLetter(s[1..]);
    }
  }

  /** `title()` of a run of letters: the first upper-cased, the rest lower-cased. */
  lemma {:induction false} TitleOfLetters(w: string)
    requires w != [] && IsLetters(w)
    ensures Title(w) == [UpperChar(w[0])] + Lower(w[1..])
  {
    TitleFromAfterLetter(w[1..]);
  }

  /** `title()` applied to each word. */
  function MapTitle(ws: seq<string>): (r: seq<string>)
    ensures |r| == |ws|
  {
    seq(|ws|, i requires 0 <= i < |ws| => Title(ws[i]))
  }

  lemma {:induction false} TitleNoSpace(w: string)
    requires NoSpace(w)
    ensures NoSpace(Title(w))
  {
    forall i | 0 <= i < |w|
      ensures !IsSpace(Title(w)[i])
    {
      TitleFromAt(w, false, i);
    }
  }

  /** The words of a title-cased string are the title-cased words of the string. */
  lemma {:induction false} SplitTitle(s: string)
    ensures Split(Title(s)) == MapTitle(Split(s))
    decreases |s|
  {
    if s != [] && IsSpace(s[0]) {
      assert Title(s) == [s[0]] + Title(s[1..]);
      SplitTitle(s[1..]);
    } else if s != [] {
      var n := WordLen(s);
      var w, rest := s[..n], s[n..];
      TitleOfWordThenRest(s, w, rest);
      SplitTitle(rest);
      SplitWordStep(Title(s), Title(w), Title(rest));
      assert Split(s) == [w] + Split(rest);
      assert MapTitle([w] + Split(rest)) == [Title(w)] + MapTitle(Split(rest));
    }
  }

  /** `title()` of a string that starts with a word: the word, then the rest afresh. */
  lemma {:induction false} TitleOfWordThenRest(s: string, w: string, rest: string)
    requires s != [] && !IsSpace(s[0])
    requires w == s[..WordLen(s)] && rest == s[WordLen(s)..]
    ensures w != [] && Title(s) == Title(w) + Title(rest)
    ensures Title(w)[0] == Title(s)[0] && !IsSpace(Title(w)[0])
    ensures WordLen(Title(s)) == |Title(w)|
  {
    assert s == w + rest;
    TitleFromConcat(w, rest, false);
    TitleFromResets(rest, CasedAfter(w, false));
    TitleNoSpace(w);
    if rest != [] {
      TitleFromAt(rest, false, 0);
    }
    WordLenPrefix(Title(w), Title(rest));
  }

  /** One step of `split()` on a string that starts with a word. */
  lemma {:induction false} SplitWordStep(t: string, w: string, rest: string)
    requires t == w + rest && w != [] && !IsSpace(w[0])
    requires WordLen(t) == |w|
    ensures Split(t) == [w] + Split(rest)
  {
    assert t[0] == w[0];
    assert t[..|w|] == w && t[|w|..] == rest;
  }

  // ------------------------------------------------------------------
  // in, startswith, endswith
  // ------------------------------------------------------------------

  predicate StartsWith(s: string, prefix: string) {
    |prefix| <= |s| && s[..|prefix|] == prefix
  }

  predicate EndsWith(s: string, suffix: string) {
    |suffix| <= |s| && s[|s| - |suffix|..] == suffix
  }

  /** `pattern in text` on strings. */
  predicate Contains(text: string, pattern: string)
    decreases |text|
  {
    StartsWith(text, pattern) || (text != [] && Contains(text[1..], pattern))
  }

  // ------------------------------------------------------------------
  // sorted() on strings: code-point lexicographic order
  // ------------------------------------------------------------------

  /** `a <= b` on Python strings. */
  predicate StrLe(a: string, b: string)
    decreases |a|
  {
    if a == [] then true
    else if b == [] then false
    else if a[0] != b[0] then a[0] < b[0]
    else StrLe(a[1..], b[1..])
  }

  lemma {:induction false} StrLeReflexive(a: string)
    ensures StrLe(a, a)
    decreases |a|
  {
    if a != [] {
      StrLeReflexive(a[1..]);
    }
  }

  lemma {:induction false} StrLeTotal(a: string, b: string)
    ensures StrLe(a, b) || StrLe(b, a)
    decreases |a|
  {
    if a != [] && b != [] && a[0] == b[0] {
      StrLeTotal(a[1..], b[1..]);
    }
  }

  lemma {:induction false} StrLeAntisymmetric(a: string, b: string)
    requires StrLe(a, b) && StrLe(b, a)
    ensures a == b
    decreases |a|
  {
    if a != [] {
      StrLeAntisymmetric(a[1..], b[1..]);
      assert a == [a[0]] + a[1..] && b == [b[0]] + b[1..];
    }
  }

  lemma {:induction false} StrLeTransitive(a: string, b: string, c: string)
    requires StrLe(a, b) && StrLe(b, c)
    ensures StrLe(a, c)
    decreases |a|
  {
    if a != [] && b != [] && c != [] && a[0] == b[0] && b[0] == c[0] {
      StrLeTransitive(a[1..], b[1..], c[1..]);
    }
  }

  predicate Sorted(s: seq<string>) {
    forall i, j :: 0 <= i < j < |s| ==> StrLe(s[i], s[j])
  }

  function Insert(x: string, s: seq<string>): seq<string> {
    if s == [] then [x]
    else if StrLe(x, s[0]) then [x] + s
    else [s[0]] + Insert(x, s[1..])
  }

  /** `sorted(ws)`, as an insertion sort. */
  function Sort(ws: seq<string>): seq<string> {
    if ws == [] then [] else Insert(ws[0], Sort(ws[1..]))
  }

  lemma {:induction false} InsertMultiset(x: string, s: seq<string>)
    ensures multiset(Insert(x, s)) == multiset(s) + multiset{x}
  {
    if s != [] && !StrLe(x, s[0]) {
      InsertMultiset(x, s[1..]);
      assert s == [s[0]] + s[1..];
    }
  }

  lemma {:induction false} InsertSorted(x: string, s: seq<string>)
    requires Sorted(s)
    ensures Sorted(Insert(x, s))
  {
    if s == [] {
    } else if StrLe(x, s[0]) {
      forall k | 0 <= k < |s| ensures StrLe(x, s[k]) {
        if k > 0 {
          StrLeTransitive(x, s[0], s[k]);
        }
      }
      ConsSorted(x, s);
    } else {
      var t := s[1..];
      assert Sorted(t);
      InsertSorted(x, t);
      StrLeTotal(x, s[0]);
      forall m | 0 <= m < |t| ensures StrLe(s[0], t[m]) {
        assert t[m] == s[m + 1];
      }
      InsertBounded(s[0], x, t);
      ConsSorted(s[0], Insert(x, t));
    }
  }

  /** An element below every element of an ordered sequence can be put in front of it. */
  lemma {:induction false} ConsSorted(h: string, q: seq<string>)
    requires Sorted(q) && forall k :: 0 <= k < |q| ==> StrLe(h, q[k])
    ensures Sorted([h] + q)
  {
    var r := [h] + q;
    forall i, j | 0 <= i < j < |r|
      ensures StrLe(r[i], r[j])
    {
      assert r[j] == q[j - 1];
      if i > 0 {
        assert r[i] == q[i - 1];
      }
    }
  }

  /** A lower bound of `x` and of every element of `t` bounds every element of `Insert(x, t)`. */
  lemma {:induction false} InsertBounded(h: string, x: string, t: seq<string>)
    requires StrLe(h, x) && forall m :: 0 <= m < |t| ==> StrLe(h, t[m])
    ensures forall k :: 0 <= k < |Insert(x, t)| ==> StrLe(h, Insert(x, t)[k])
  {
    InsertMultiset(x, t);
    var q := Insert(x, t);
    forall k | 0 <= k < |q|
      ensures StrLe(h, q[k])
    {
      assert q[k] in multiset(q);
      if q[k] != x {
        assert q[k] in multiset(t);
        var m :| 0 <= m < |t| && t[m] == q[k];
      }
    }
  }

  /** `sorted` returns an ordered permutation of its argument. */
  lemma {:induction false} SortCorrect(ws: seq<string>)
    ensures Sorted(Sort(ws))
    ensures multiset(Sort(ws)) == multiset(ws)
  {
    if ws != [] {
      SortCorrect(ws[1..]);
      InsertSorted(ws[0], Sort(ws[1..]));
      InsertMultiset(ws[0], Sort(ws[1..]));
      assert ws == [ws[0]] + ws[1..];
    }
  }

  /** The head of an ordered sequence is below each of its elements. */
  lemma {:induction false} SortedHeadIsLeast(a: seq<string>, y: string)
    requires Sorted(a) && y in a
    ensures StrLe(a[0], y)
  {
    var i :| 0 <= i < |a| && a[i] == y;
    if i == 0 {
      StrLeReflexive(y);
    }
  }

  lemma {:induction false} MultisetTail(a: seq<string>)
    requires a != []
    ensures multiset(a[1..]) == multiset(a) - multiset{a[0]}
  {
    assert a == [a[0]] + a[1..];
  }

  lemma {:induction false} SortedTail(a: seq<string>)
    requires a != [] && Sorted(a)
    ensures Sorted(a[1..])
  {
  }

  /** Two ordered sequences with the same elements are equal. */
  lemma {:induction false} SortedUnique(a: seq<string>, b: seq<string>)
    requires Sorted(a) && Sorted(b)
    requires multiset(a) == multiset(b)
    ensures a == b
  {
    if a == [] {
      assert |multiset(b)| == 0;
    } else {
      SortedSameHead(a, b);
      MultisetTail(a);
      MultisetTail(b);
      SortedTail(a);
      SortedTail(b);
      SortedUnique(a[1..], b[1..]);
      assert a == [a[0]] + a[1..] && b == [b[0]] + b[1..];
    }
  }

  /** Two ordered sequences with the same elements start with the same element. */
  lemma {:induction false} SortedSameHead(a: seq<string>, b: seq<string>)
    requires Sorted(a) && Sorted(b) && a != []
    requires multiset(a) == multiset(b)
    ensures b != [] && a[0] == b[0]
  {
    assert a[0] in multiset(b);
    assert b != [];
    assert b[0] in multiset(a);
    SortedHeadIsLeast(a, b[0]);
    SortedHeadIsLeast(b, a[0]);
    StrLeAntisymmetric(a[0], b[0]);
  }

  /** `sorted` depends only on the multiset of its argument. */
  lemma {:induction false} SortPermutationInvariant(a: seq<string>, b: seq<string>)
    requires multiset(a) == multiset(b)
    ensures Sort(a) == Sort(b)
  {
    SortCorrect(a);
    SortCorrect(b);
    SortedUnique(Sort(a), Sort(b));
  }

  // ------------------------------------------------------------------
  // str(n) for a natural number
  // ------------------------------------------------------------------

  function DigitChar(d: nat): (c: char)
    requires d < 10
    ensures IsDigit(c)
  {
    ('0' as int + d) as char
  }

  /** The decimal rendering of `n`, as `f"{n}"` produces it. */
  function Decimal(n: nat): (r: string)
    ensures r != []
    ensures forall i :: 0 <= i < |r| ==> IsDigit(r[i])
  {
    if n < 10 then [DigitChar(n)] else Decimal(n / 10) + [DigitChar(n % 10)]
  }
}
