/** The answer normaliser of the quiz (`normalizeInput`) and the substring
    test used in sentence mode (`String.prototype.includes`).

    `normalizeInput` runs five steps in order: canonical decomposition
    (NFD), removal of the combining marks U+0300..U+036F, removal of every
    character that is not an ASCII letter, an ASCII digit or JavaScript
    whitespace (`\s`), lower-casing, and trimming. Each step is a function
    here; `Normalize` is their composition. */
module Normalization {

  /** JavaScript's `\s` class, which is also the set `String.prototype.trim`
      removes: the ECMAScript WhiteSpace and LineTerminator code points. */
  predicate IsJsSpace(c: char) {
    || ('\t' <= c <= '\r') || c == ' ' || c == '\U{A0}' || c == '\U{1680}'
    || ('\U{2000}' <= c <= '\U{200A}')
    || c == '\U{2028}' || c == '\U{2029}' || c == '\U{202F}' || c == '\U{205F}'
    || c == '\U{3000}' || c == '\U{FEFF}'
  }

  predicate IsAsciiDigit(c: char) { '0' <= c <= '9' }
  predicate IsAsciiUpper(c: char) { 'A' <= c <= 'Z' }
  predicate IsAsciiLower(c: char) { 'a' <= c <= 'z' }
  predicate IsAsciiLetter(c: char) { IsAsciiUpper(c) || IsAsciiLower(c) }
  predicate IsAsciiAlnum(c: char) { IsAsciiDigit(c) || IsAsciiLetter(c) }

  /** The block the second step deletes: U+0300..U+036F. */
  predicate IsCombiningMark(c: char) { '\U{300}' <= c <= '\U{36F}' }

  /** The upper half of Latin-1, U+00C0..U+00FF, where the precomposed
      letters with a canonical decomposition lie. */
  predicate InLatin1UpperHalf(c: char) { '\U{C0}' <= c <= '\U{FF}' }

  /** A character the normaliser can return. */
  predicate IsNormalChar(c: char) { IsAsciiLower(c) || IsAsciiDigit(c) || IsJsSpace(c) }

  /** What `Normalize` returns: only normal characters, and no whitespace
      at either end. */
  predicate IsNormalForm(t: string) {
    && (forall i :: 0 <= i < |t| ==> IsNormalChar(t[i]))
    && (t != [] ==> !IsJsSpace(t[0]) && !IsJsSpace(t[|t| - 1]))
  }

  /** The characters of U+00C0..U+00FF without a canonical decomposition:
      letters such as 'Æ' and 'ß' and the signs '×' and '÷'. */
  predicate IsNonDecomposing(c: char) {
    || c == 'Æ' || c == 'Ð' || c == '×' || c == 'Ø' || c == 'Þ' || c == 'ß'
    || c == 'æ' || c == 'ð' || c == '÷' || c == 'ø' || c == 'þ'
  }

  /** Canonical decomposition of one character: each precomposed letter of
      Latin-1 (U+00C0..U+00FF) becomes its base letter followed by one
      combining mark; every other character is left as it is. */
  function DecomposeChar(c: char): (r: string)
    ensures |r| == 1 || |r| == 2
    ensures |r| == 2 ==> InLatin1UpperHalf(c) && IsAsciiLetter(r[0]) && IsCombiningMark(r[1])
    ensures |r| == 1 ==> r == [c]
    ensures InLatin1UpperHalf(c) && !IsNonDecomposing(c) ==> |r| == 2
    ensures IsNonDecomposing(c) ==> r == [c]
  {
    match c
    case 'À' => ['A', '\U{300}'] case 'Á' => ['A', '\U{301}']
    case 'Â' => ['A', '\U{302}'] case 'Ã' => ['A', '\U{303}']
    case 'Ä' => ['A', '\U{308}'] case 'Å' => ['A', '\U{30A}']
    case 'Ç' => ['C', '\U{327}'] case 'È' => ['E', '\U{300}']
    case 'É' => ['E', '\U{301}'] case 'Ê' => ['E', '\U{302}']
    case 'Ë' => ['E', '\U{308}'] case 'Ì' => ['I', '\U{300}']
    case 'Í' => ['I', '\U{301}'] case 'Î' => ['I', '\U{302}']
    case 'Ï' => ['I', '\U{308}'] case 'Ñ' => ['N', '\U{303}']
    case 'Ò' => ['O', '\U{300}'] case 'Ó' => ['O', '\U{301}']
    case 'Ô' => ['O', '\U{302}'] case 'Õ' => ['O', '\U{303}']
    case 'Ö' => ['O', '\U{308}'] case 'Ù' => ['U', '\U{300}']
    case 'Ú' => ['U', '\U{301}'] case 'Û' => ['U', '\U{302}']
    case 'Ü' => ['U', '\U{308}'] case 'Ý' => ['Y', '\U{301}']
    case 'à' => ['a', '\U{300}'] case 'á' => ['a', '\U{301}']
    case 'â' => ['a', '\U{302}'] case 'ã' => ['a', '\U{303}']
    case 'ä' => ['a', '\U{308}'] case 'å' => ['a', '\U{30A}']
    case 'ç' => ['c', '\U{327}'] case 'è' => ['e', '\U{300}']
    case 'é' => ['e', '\U{301}'] case 'ê' => ['e', '\U{302}']
    case 'ë' => ['e', '\U{308}'] case 'ì' => ['i', '\U{300}']
    case 'í' => ['i', '\U{301}'] case 'î' => ['i', '\U{302}']
    case 'ï' => ['i', '\U{308}'] case 'ñ' => ['n', '\U{303}']
    case 'ò' => ['o', '\U{300}'] case 'ó' => ['o', '\U{301}']
    case 'ô' => ['o', '\U{302}'] case 'õ' => ['o', '\U{303}']
    case 'ö' => ['o', '\U{308}'] case 'ù' => ['u', '\U{300}']
    case 'ú' => ['u', '\U{301}'] case 'û' => ['u', '\U{302}']
    case 'ü' => ['u', '\U{308}'] case 'ý' => ['y', '\U{301}']
    case 'ÿ' => ['y', '\U{308}']
    case _ => [c]
  }

  /** Step 1: canonical decomposition (NFD), over the Latin-1 table. */
  function Nfd(s: string): (r: string)
    ensures (forall i :: 0 <= i < |s| ==> !InLatin1UpperHalf(s[i])) ==> r == s
    ensures |r| >= |s|
  {
    if s == [] then [] else DecomposeChar(s[0]) + Nfd(s[1..])
  }

  /** Step 2: delete every combining mark. */
  function StripMarks(s: string): (r: string)
    ensures forall i :: 0 <= i < |r| ==> !IsCombiningMark(r[i])
    ensures (forall i :: 0 <= i < |s| ==> !IsCombiningMark(s[i])) ==> r == s
    ensures |r| <= |s|
  {
    if s == [] then []
    else if IsCombiningMark(s[0]) then StripMarks(s[1..])
    else [s[0]] + StripMarks(s[1..])
  }

  /** Step 3: keep only ASCII letters, ASCII digits and whitespace. */
  function KeepWordChars(s: string): (r: string)
    ensures forall i :: 0 <= i < |r| ==> IsAsciiAlnum(r[i]) || IsJsSpace(r[i])
    ensures (forall i :: 0 <= i < |s| ==> IsAsciiAlnum(s[i]) || IsJsSpace(s[i])) ==> r == s
    ensures |r| <= |s|
  {
    if s == [] then []
    else if IsAsciiAlnum(s[0]) || IsJsSpace(s[0]) then [s[0]] + KeepWordChars(s[1..])
    else KeepWordChars(s[1..])
  }

  /** `toLowerCase` on the characters that can reach step 4: ASCII letters,
      digits and whitespace, so only A..Z change. */
  function LowerChar(c: char): (r: char)
    ensures IsAsciiUpper(c) ==> IsAsciiLower(r) && r as int - 'a' as int == c as int - 'A' as int
    ensures !IsAsciiUpper(c) ==> r == c
  {
    if IsAsciiUpper(c) then (c as int + 32) as char else c
  }

  /** Step 4: lower-case. */
  function ToLower(s: string): (r: string)
    ensures |r| == |s|
    ensures forall i :: 0 <= i < |s| ==> r[i] == LowerChar(s[i])
    ensures (forall i :: 0 <= i < |s| ==> !IsAsciiUpper(s[i])) ==> r == s
  {
    if s == [] then [] else [LowerChar(s[0])] + ToLower(s[1..])
  }

  /** The length of the longest whitespace prefix. */
  function LeadingSpaces(s: string): (n: nat)
    ensures n <= |s|
    ensures forall i :: 0 <= i < n ==> IsJsSpace(s[i])
    ensures n < |s| ==> !IsJsSpace(s[n])
  {
    if s != [] && IsJsSpace(s[0]) then 1 + LeadingSpaces(s[1..]) else 0
  }

  /** The length of the longest whitespace suffix. */
  function TrailingSpaces(s: string): (n: nat)
    ensures n <= |s|
    ensures forall i :: |s| - n <= i < |s| ==> IsJsSpace(s[i])
    ensures n < |s| ==> !IsJsSpace(s[|s| - 1 - n])
  {
    if s != [] && IsJsSpace(s[|s| - 1]) then 1 + TrailingSpaces(s[..|s| - 1]) else 0
  }

  /** Removes the longest whitespace prefix. */
  function TrimStart(s: string): string {
    s[LeadingSpaces(s)..]
  }

  /** Removes the longest whitespace suffix. */
  function TrimEnd(s: string): string {
    s[..|s| - TrailingSpaces(s)]
  }

  /** Step 5: trim whitespace at both ends. */
  function Trim(s: string): (r: string)
    ensures r != [] ==> !IsJsSpace(r[0]) && !IsJsSpace(r[|r| - 1])
    ensures r == [] <==> forall i :: 0 <= i < |s| ==> IsJsSpace(s[i])
    ensures (s == [] || (!IsJsSpace(s[0]) && !IsJsSpace(s[|s| - 1]))) ==> r == s
    ensures exists a, b ::
      && 0 <= a <= b <= |s| && r == s[a..b]
      && (forall i :: 0 <= i < a ==> IsJsSpace(s[i]))
      && (forall i :: b <= i < |s| ==> IsJsSpace(s[i]))
  {
    TrimIsEdgeSlice(s);
    TrimHasNoEdgeSpace(s);
    TrimEmptyIffBlank(s);
    TrimFixesUntrimmed(s);
    TrimEnd(TrimStart(s))
  }

  /** Trimming keeps the middle of the string: it cuts off a whitespace
      prefix and a whitespace suffix and nothing else. */
  lemma TrimIsEdgeSlice(s: string)
    ensures var r := TrimEnd(TrimStart(s));
      exists a, b ::
        && 0 <= a <= b <= |s| && r == s[a..b]
        && (forall i :: 0 <= i < a ==> IsJsSpace(s[i]))
        && (forall i :: b <= i < |s| ==> IsJsSpace(s[i]))
  {
    var a := LeadingSpaces(s);
    var t := s[a..];
    var b := a + |t| - TrailingSpaces(t);
    assert TrimEnd(TrimStart(s)) == s[a..b];
    forall i | b <= i < |s| ensures IsJsSpace(s[i]) {
      assert s[i] == t[i - a];
    }
  }

  lemma TrimHasNoEdgeSpace(s: string)
    ensures var r := TrimEnd(TrimStart(s)); r != [] ==> !IsJsSpace(r[0]) && !IsJsSpace(r[|r| - 1])
  {
    var t := TrimStart(s);
    var r := TrimEnd(t);
    if r != [] {
      assert r[0] == t[0] == s[LeadingSpaces(s)];
      assert r[|r| - 1] == t[|t| - 1 - TrailingSpaces(t)];
    }
  }

  lemma TrimEmptyIffBlank(s: string)
    ensures TrimEnd(TrimStart(s)) == [] <==> forall i :: 0 <= i < |s| ==> IsJsSpace(s[i])
  {
  }

  lemma TrimFixesUntrimmed(s: string)
    ensures (s == [] || (!IsJsSpace(s[0]) && !IsJsSpace(s[|s| - 1]))) ==> TrimEnd(TrimStart(s)) == s
  {
    if s != [] && !IsJsSpace(s[0]) {
      assert TrimStart(s) == s;
    }
  }

  /** Trimming only removes characters, so the characters that remain
      keep their class. */
  lemma TrimKeepsNormalChars(s: string)
    requires forall i :: 0 <= i < |s| ==> IsNormalChar(s[i])
    ensures forall i :: 0 <= i < |Trim(s)| ==> IsNormalChar(Trim(s)[i])
  {
    var t := TrimStart(s);
    SliceKeepsNormalChars(s, LeadingSpaces(s), |s|);
    SliceKeepsNormalChars(t, 0, |t| - TrailingSpaces(t));
  }

  lemma SliceKeepsNormalChars(s: string, lo: nat, hi: nat)
    requires lo <= hi <= |s|
    requires forall i :: 0 <= i < |s| ==> IsNormalChar(s[i])
    ensures forall i :: 0 <= i < hi - lo ==> IsNormalChar(s[lo..hi][i])
  {
    forall i | 0 <= i < hi - lo ensures IsNormalChar(s[lo..hi][i]) {
      assert s[lo..hi][i] == s[lo + i];
    }
  }

  /** Steps 1 to 4, which work character by character. */
  function EarlySteps(s: string): (r: string)
    ensures forall i :: 0 <= i < |r| ==> IsNormalChar(r[i])
  {
    var kept := KeepWordChars(StripMarks(Nfd(s)));
    var r := ToLower(kept);
    assert forall i :: 0 <= i < |r| ==> IsNormalChar(r[i]) by {
      forall i | 0 <= i < |r| ensures IsNormalChar(r[i]) {
        assert r[i] == LowerChar(kept[i]);
      }
    }
    r
  }

  /** `normalizeInput`: the five steps in order. */
  function Normalize(s: string): (r: string)
    ensures IsNormalForm(r)
  {
    var early := EarlySteps(s);
    TrimGivesNormalForm(early);
    Trim(early)
  }

  lemma TrimGivesNormalForm(s: string)
    requires forall i :: 0 <= i < |s| ==> IsNormalChar(s[i])
    ensures IsNormalForm(Trim(s))
  {
    TrimKeepsNormalChars(s);
  }

  lemma {:induction false} NfdFixesNormalChars(t: string)
    requires forall i :: 0 <= i < |t| ==> IsNormalChar(t[i])
    ensures Nfd(t) == t
  {
    forall i | 0 <= i < |t| ensures !InLatin1UpperHalf(t[i]) {
      assert IsNormalChar(t[i]);
    }
  }

  lemma {:induction false} StripMarksFixesNormalChars(t: string)
    requires forall i :: 0 <= i < |t| ==> IsNormalChar(t[i])
    ensures StripMarks(t) == t
  {
    forall i | 0 <= i < |t| ensures !IsCombiningMark(t[i]) {
      assert IsNormalChar(t[i]);
    }
  }

  lemma {:induction false} KeepWordCharsFixesNormalChars(t: string)
    requires forall i :: 0 <= i < |t| ==> IsNormalChar(t[i])
    ensures KeepWordChars(t) == t
  {
    forall i | 0 <= i < |t| ensures IsAsciiAlnum(t[i]) || IsJsSpace(t[i]) {
      assert IsNormalChar(t[i]);
    }
  }

  lemma {:induction false} ToLowerFixesNormalChars(t: string)
    requires forall i :: 0 <= i < |t| ==> IsNormalChar(t[i])
    ensures ToLower(t) == t
  {
    forall i | 0 <= i < |t| ensures !IsAsciiUpper(t[i]) {
      assert IsNormalChar(t[i]);
    }
  }

  /** The first four steps leave a string of normal characters as it is. */
  lemma {:induction false} EarlyStepsFixNormalChars(t: string)
    requires forall i :: 0 <= i < |t| ==> IsNormalChar(t[i])
    ensures EarlySteps(t) == t
  {
    NfdFixesNormalChars(t);
    StripMarksFixesNormalChars(t);
    KeepWordCharsFixesNormalChars(t);
    ToLowerFixesNormalChars(t);
  }

  /** A string already in normal form is left as it is. */
  lemma {:induction false} NormalizeFixesNormalForm(t: string)
    requires IsNormalForm(t)
    ensures Normalize(t) == t
  {
    EarlyStepsFixNormalChars(t);
  }

  /** Normalising twice is normalising once. */
  lemma {:induction false} NormalizeIdempotent(s: string)
    ensures Normalize(Normalize(s)) == Normalize(s)
  {
    NormalizeFixesNormalForm(Normalize(s));
  }

  /** Input made only of whitespace (the empty input included) normalises
      to the empty string. */
  lemma {:induction false} BlankNormalizesToEmpty(s: string)
    requires forall i :: 0 <= i < |s| ==> IsJsSpace(s[i])
    ensures Normalize(s) == []
  {
    EarlyStepsFixNormalChars(s);
  }

  lemma {:induction false} NfdAppend(a: string, b: string)
    ensures Nfd(a + b) == Nfd(a) + Nfd(b)
  {
    if a == [] {
      assert a + b == b;
    } else {
      assert (a + b)[0] == a[0] && (a + b)[1..] == a[1..] + b;
      NfdAppend(a[1..], b);
      ConcatAssociates(DecomposeChar(a[0]), Nfd(a[1..]), Nfd(b));
    }
  }

  lemma ConcatAssociates(x: string, y: string, z: string)
    ensures x + (y + z) == (x + y) + z
  {
  }

  lemma {:induction false} StripMarksAppend(a: string, b: string)
    ensures StripMarks(a + b) == StripMarks(a) + StripMarks(b)
  {
    if a == [] {
      assert a + b == b;
    } else {
      assert (a + b)[1..] == a[1..] + b;
      StripMarksAppend(a[1..], b);
    }
  }

  lemma {:induction false} KeepWordCharsAppend(a: string, b: string)
    ensures KeepWordChars(a + b) == KeepWordChars(a) + KeepWordChars(b)
  {
    if a == [] {
      assert a + b == b;
    } else {
      assert (a + b)[1..] == a[1..] + b;
      KeepWordCharsAppend(a[1..], b);
    }
  }

  lemma ToLowerAppend(a: string, b: string)
    ensures ToLower(a + b) == ToLower(a) + ToLower(b)
  {
  }

  /** Steps 1 to 4 distribute over concatenation. */
  lemma {:induction false} EarlyStepsAppend(a: string, b: string)
    ensures EarlySteps(a + b) == EarlySteps(a) + EarlySteps(b)
  {
    NfdAppend(a, b);
    StripMarksAppend(Nfd(a), Nfd(b));
    KeepWordCharsAppend(StripMarks(Nfd(a)), StripMarks(Nfd(b)));
    ToLowerAppend(KeepWordChars(StripMarks(Nfd(a))), KeepWordChars(StripMarks(Nfd(b))));
  }

  /** The letter a character is graded by: its base letter, lower-cased
      ('É' and 'é' both fold to 'e'). */
  function Fold(c: char): (r: char)
    ensures |DecomposeChar(c)| == 2 ==> IsAsciiLower(r)
    ensures |DecomposeChar(c)| == 1 ==> r == LowerChar(c)
  {
    LowerChar(DecomposeChar(c)[0])
  }

  /** What steps 1 to 4 make of a single character: its folded letter when
      that letter is an ASCII letter, a digit or whitespace, else nothing. */
  lemma EarlyStepsOfChar(c: char)
    ensures EarlySteps([c]) == if IsAsciiAlnum(Fold(c)) || IsJsSpace(Fold(c)) then [Fold(c)] else []
  {
    var d := DecomposeChar(c);
    assert Nfd([c]) == d;
    if |d| == 2 {
      assert StripMarks(d) == [d[0]] + StripMarks([d[1]]);
    } else if IsCombiningMark(c) {
      assert StripMarks([c]) == [];
    } else {
      assert StripMarks([c]) == [c];
    }
  }

  /** Matching ignores case and accents: strings that agree character by
      character once folded normalise alike. */
  lemma {:induction false} NormalizeIgnoresCaseAndAccents(s: string, t: string)
    requires |s| == |t|
    requires forall i :: 0 <= i < |s| ==> Fold(s[i]) == Fold(t[i])
    ensures Normalize(s) == Normalize(t)
  {
    EarlyStepsIgnoreCaseAndAccents(s, t);
  }

  lemma {:induction false} EarlyStepsIgnoreCaseAndAccents(s: string, t: string)
    requires |s| == |t|
    requires forall i :: 0 <= i < |s| ==> Fold(s[i]) == Fold(t[i])
    ensures EarlySteps(s) == EarlySteps(t)
  {
    if s != [] {
      FoldsAgreeOnTails(s, t);
      EarlyStepsIgnoreCaseAndAccents(s[1..], t[1..]);
      EarlyStepsOfFoldedChar(s[0], t[0]);
      EarlyStepsOfCons(s);
      EarlyStepsOfCons(t);
    }
  }

  lemma FoldsAgreeOnTails(s: string, t: string)
    requires |s| == |t| && s != []
    requires forall i :: 0 <= i < |s| ==> Fold(s[i]) == Fold(t[i])
    ensures Fold(s[0]) == Fold(t[0])
    ensures forall i :: 0 <= i < |s| - 1 ==> Fold(s[1..][i]) == Fold(t[1..][i])
  {
    forall i | 0 <= i < |s| - 1 ensures Fold(s[1..][i]) == Fold(t[1..][i]) {
      assert s[1..][i] == s[i + 1] && t[1..][i] == t[i + 1];
    }
  }

  /** Steps 1 to 4 treat the first character on its own. */
  lemma EarlyStepsOfCons(s: string)
    requires s != []
    ensures EarlySteps(s) == EarlySteps([s[0]]) + EarlySteps(s[1..])
  {
    assert s == [s[0]] + s[1..];
    EarlyStepsAppend([s[0]], s[1..]);
  }

  lemma EarlyStepsOfFoldedChar(a: char, b: char)
    requires Fold(a) == Fold(b)
    ensures EarlySteps([a]) == EarlySteps([b])
  {
    EarlyStepsOfChar(a);
    EarlyStepsOfChar(b);
  }

  /** Steps 1 to 4 keep a leading ASCII letter or digit, lower-cased. */
  lemma {:induction false} EarlyStepsKeepLeadingAlnum(s: string)
    requires s != [] && IsAsciiAlnum(s[0])
    ensures EarlySteps(s) != [] && EarlySteps(s)[0] == LowerChar(s[0])
  {
    assert s == [s[0]] + s[1..];
    EarlyStepsAppend([s[0]], s[1..]);
    EarlyStepsOfChar(s[0]);
  }

  /** A string that starts with an ASCII letter or digit normalises to a
      non-empty string that starts with that character, lower-cased. */
  lemma {:induction false} LeadingAlnumSurvives(s: string)
    requires s != [] && IsAsciiAlnum(s[0])
    ensures Normalize(s) != [] && Normalize(s)[0] == LowerChar(s[0])
  {
    EarlyStepsKeepLeadingAlnum(s);
    var l := EarlySteps(s);
    assert !IsJsSpace(l[0]);
    assert LeadingSpaces(l) == 0;
  }

  /** The accented letters of Spanish fold to their base letters, in
      either case; one lemma per pair of letters keeps each proof small. */
  lemma AcuteAAndEFold()
    ensures Fold('á') == 'a' && Fold('Á') == 'a' && Fold('é') == 'e' && Fold('É') == 'e'
  {
  }

  lemma AcuteIAndOFold()
    ensures Fold('í') == 'i' && Fold('Í') == 'i' && Fold('ó') == 'o' && Fold('Ó') == 'o'
  {
  }

  lemma AcuteUFolds()
    ensures Fold('ú') == 'u' && Fold('Ú') == 'u'
  {
  }

  lemma DiaeresisUFolds()
    ensures Fold('ü') == 'u' && Fold('Ü') == 'u'
  {
  }

  lemma TildeNFolds()
    ensures Fold('ñ') == 'n' && Fold('Ñ') == 'n'
  {
  }

  /** "hable" is already in normal form. */
  lemma PlainExampleIsNormal(plain: string)
    requires plain == "hable"
    ensures Normalize(plain) == plain
  {
    NormalizeFixesNormalForm(plain);
  }

  /** Upper-casing and an acute accent leave every folded letter of "hable" unchanged. */
  lemma ExampleFoldsAgree(upper: string, accented: string, plain: string)
    requires upper == "HABLÉ" && accented == "hablé" && plain == "hable"
    ensures |upper| == |plain| && |accented| == |plain|
    ensures forall i :: 0 <= i < |plain| ==> Fold(upper[i]) == Fold(plain[i])
    ensures forall i :: 0 <= i < |plain| ==> Fold(accented[i]) == Fold(plain[i])
  {
  }

  /** "HABLÉ" and "hablé" both normalise to "hable". */
  lemma AccentAndCaseInsensitiveExample(upper: string, accented: string, plain: string)
    requires upper == "HABLÉ" && accented == "hablé" && plain == "hable"
    ensures Normalize(upper) == plain
    ensures Normalize(accented) == plain
  {
    PlainExampleIsNormal(plain);
    ExampleFoldsAgree(upper, accented, plain);
    NormalizeIgnoresCaseAndAccents(upper, plain);
    NormalizeIgnoresCaseAndAccents(accented, plain);
  }

  /** `s.startsWith(t)`. */
  predicate StartsWith(s: string, t: string) {
    |t| <= |s| && s[..|t|] == t
  }

  /** `s.includes(t)`: some position of `s` starts an occurrence of `t`. */
  function Includes(s: string, t: string): (r: bool)
    ensures t == [] ==> r
    ensures |s| < |t| ==> !r
  {
    StartsWith(s, t) || (s != [] && Includes(s[1..], t))
  }

  /** `t` occurs in `s` at position `i`. */
  predicate OccursAt(s: string, t: string, i: int) {
    0 <= i && i + |t| <= |s| && s[i..i + |t|] == t
  }

  /** `Includes` holds exactly when `t` occurs at some position of `s`. */
  lemma {:induction false} IncludesIffOccurs(s: string, t: string)
    ensures Includes(s, t) <==> exists i :: OccursAt(s, t, i)
  {
    if StartsWith(s, t) {
      assert OccursAt(s, t, 0);
    } else if s == [] {
    } else {
      IncludesIffOccurs(s[1..], t);
      if exists i :: OccursAt(s[1..], t, i) {
        var i :| OccursAt(s[1..], t, i);
        assert s[i + 1..i + 1 + |t|] == s[1..][i..i + |t|];
        assert OccursAt(s, t, i + 1);
      }
      if exists i :: OccursAt(s, t, i) {
        var i :| OccursAt(s, t, i);
        assert i != 0;
        assert s[1..][i - 1..i - 1 + |t|] == s[i..i + |t|];
        assert OccursAt(s[1..], t, i - 1);
      }
    }
  }

}
