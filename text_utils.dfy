/** `normalizeText` (src/utils/textUtils.js): folds the Turkish letters to
    ASCII, lower-cases and trims, for accent-insensitive product search. */
module TextUtils {

  import opened Wrappers
  import opened JsValues
  import Strings

  /** The message of the TypeError thrown when `text.replace` is called on a
      truthy value that is not a string. */
  const ReplaceNotAFunction := "text.replace is not a function"

  // The Turkish letters the source names, by code point.
  const CapitalDottedI := '\U{0130}'    // İ
  const DotlessI := '\U{0131}'          // ı
  const CapitalG := '\U{011E}'          // Ğ
  const SmallG := '\U{011F}'            // ğ
  const CapitalU := '\U{00DC}'          // Ü
  const SmallU := '\U{00FC}'            // ü
  const CapitalS := '\U{015E}'          // Ş
  const SmallS := '\U{015F}'            // ş
  const CapitalO := '\U{00D6}'          // Ö
  const SmallO := '\U{00F6}'            // ö
  const CapitalC := '\U{00C7}'          // Ç
  const SmallC := '\U{00E7}'            // ç

  predicate IsTurkishLetter(c: char)
  {
    c == CapitalDottedI || c == DotlessI || c == CapitalG || c == SmallG || c == CapitalU || c == SmallU
    || c == CapitalS || c == SmallS || c == CapitalO || c == SmallO || c == CapitalC || c == SmallC
  }

  predicate IsAsciiUpper(c: char)
  {
    'A' <= c <= 'Z'
  }

  /** The chain of `replace` calls, in the order the source applies them. */
  function ReplaceTurkish(s: string): (r: string)
    ensures |r| == |s|
  {
    var s1 := Strings.ReplaceAll(s, CapitalDottedI, 'i');
    var s2 := Strings.ReplaceAll(s1, 'I', 'i');
    var s3 := Strings.ReplaceAll(s2, DotlessI, 'i');
    var s4 := Strings.ReplaceAll(s3, CapitalG, 'g');
    var s5 := Strings.ReplaceAll(s4, SmallG, 'g');
    var s6 := Strings.ReplaceAll(s5, CapitalU, 'u');
    var s7 := Strings.ReplaceAll(s6, SmallU, 'u');
    var s8 := Strings.ReplaceAll(s7, CapitalS, 's');
    var s9 := Strings.ReplaceAll(s8, SmallS, 's');
    var s10 := Strings.ReplaceAll(s9, CapitalO, 'o');
    var s11 := Strings.ReplaceAll(s10, SmallO, 'o');
    var s12 := Strings.ReplaceAll(s11, CapitalC, 'c');
    Strings.ReplaceAll(s12, SmallC, 'c')
  }

  /** `toLowerCase` restricted to ASCII: other characters are kept. */
  function LowerChar(c: char): (d: char)
    ensures !IsAsciiUpper(d)
  {
    if IsAsciiUpper(c) then (c as int + 32) as char else c
  }

  function ToLowerCase(s: string): (r: string)
    ensures |r| == |s|
    ensures forall i :: 0 <= i < |s| ==> r[i] == LowerChar(s[i])
  {
    seq(|s|, i requires 0 <= i < |s| => LowerChar(s[i]))
  }

  /** ECMAScript's WhiteSpace and LineTerminator characters, which `trim`
      removes. */
  predicate IsWhitespace(c: char)
  {
    c == '\t' || c == '\n' || c == '\U{000B}' || c == '\U{000C}' || c == '\r' || c == ' '
    || c == '\U{00A0}' || c == '\U{1680}' || ('\U{2000}' <= c <= '\U{200A}')
    || c == '\U{2028}' || c == '\U{2029}' || c == '\U{202F}' || c == '\U{205F}'
    || c == '\U{3000}' || c == '\U{FEFF}'
  }

  /** The first position at or after `i` that is not whitespace. */
  function SkipSpace(s: string, i: nat): (k: nat)
    requires i <= |s|
    ensures i <= k <= |s|
    ensures forall j :: i <= j < k ==> IsWhitespace(s[j])
    ensures k == |s| || !IsWhitespace(s[k])
    decreases |s| - i
  {
    if i < |s| && IsWhitespace(s[i]) then SkipSpace(s, i + 1) else i
  }

  /** The end of `s[lo..hi]` once its trailing whitespace is dropped. */
  function BackSpace(s: string, lo: nat, hi: nat): (k: nat)
    requires lo <= hi <= |s|
    ensures lo <= k <= hi
    ensures forall j :: k <= j < hi ==> IsWhitespace(s[j])
    ensures k == lo || !IsWhitespace(s[k - 1])
    decreases hi
  {
    if lo < hi && IsWhitespace(s[hi - 1]) then BackSpace(s, lo, hi - 1) else hi
  }

  /** `trim`: the slice of `s` that starts after its leading whitespace,
      with only whitespace after it and none at either end. */
  function Trim(s: string): (r: string)
    ensures SkipSpace(s, 0) + |r| <= |s|
    ensures r == s[SkipSpace(s, 0)..SkipSpace(s, 0) + |r|]
    ensures forall i :: 0 <= i < SkipSpace(s, 0) ==> IsWhitespace(s[i])
    ensures forall i :: SkipSpace(s, 0) + |r| <= i < |s| ==> IsWhitespace(s[i])
    ensures r == [] || (!IsWhitespace(r[0]) && !IsWhitespace(r[|r| - 1]))
  {
    var a := SkipSpace(s, 0);
    s[a..BackSpace(s, a, |s|)]
  }

  /** The text pipeline of lines 4-12 on a string. */
  function Normalize(s: string): (r: string)
    ensures |r| <= |s|
  {
    Trim(ToLowerCase(ReplaceTurkish(s)))
  }

  /** `normalizeText(text)`: a falsy argument gives `""`; a string is
      normalised; any other truthy value makes `text.replace` throw. */
  function NormalizeText(text: JsValue): (r: Result<string, string>)
    ensures !Truthy(text) ==> r == Ok("")
    ensures text.Str? ==> r == Ok(Normalize(text.s))
    ensures Truthy(text) && !text.Str? ==> r == Err(ReplaceNotAFunction)
  {
    if !Truthy(text) then Ok("")
    else if text.Str? then Ok(Normalize(text.s))
    else Err(ReplaceNotAFunction)
  }

  /** The independent per-character reference for the replace chain and the
      lower-casing: what each input character becomes. */
  function FoldChar(c: char): char
  {
    if c == CapitalDottedI || c == 'I' || c == DotlessI then 'i'
    else if c == CapitalG || c == SmallG then 'g'
    else if c == CapitalU || c == SmallU then 'u'
    else if c == CapitalS || c == SmallS then 's'
    else if c == CapitalO || c == SmallO then 'o'
    else if c == CapitalC || c == SmallC then 'c'
    else LowerChar(c)
  }

  /** `FoldChar` applied at every position. */
  function Folded(s: string): (r: string)
    ensures |r| == |s|
  {
    seq(|s|, i requires 0 <= i < |s| => FoldChar(s[i]))
  }

  /** Before the trim the pipeline works character by character: the replace
      chain followed by lower-casing is `Folded`. */
  lemma FoldPerCharacter(s: string)
    ensures ToLowerCase(ReplaceTurkish(s)) == Folded(s)
  {
    var m := ToLowerCase(ReplaceTurkish(s));
    forall i | 0 <= i < |s| ensures m[i] == Folded(s)[i] { }
  }

  lemma FoldCharAlphabet(c: char)
    ensures !IsTurkishLetter(FoldChar(c)) && !IsAsciiUpper(FoldChar(c))
    ensures FoldChar(FoldChar(c)) == FoldChar(c)
  {
  }

  /** Normalising is folding and then trimming. */
  lemma NormalizeIsTrimOfFolded(s: string)
    ensures Normalize(s) == Trim(Folded(s))
  {
    FoldPerCharacter(s);
  }

  /** What each named letter folds to (and so becomes in `normalizeText`, by
      `FoldPerCharacter`): `İ`, `I` and `ı` all become `i`, and the other
      pairs lose their diacritic. */
  lemma TurkishLettersFold()
    ensures FoldChar(CapitalDottedI) == 'i' && FoldChar('I') == 'i' && FoldChar(DotlessI) == 'i'
    ensures FoldChar(CapitalG) == 'g' && FoldChar(SmallG) == 'g'
    ensures FoldChar(CapitalU) == 'u' && FoldChar(SmallU) == 'u'
    ensures FoldChar(CapitalS) == 's' && FoldChar(SmallS) == 's'
    ensures FoldChar(CapitalO) == 'o' && FoldChar(SmallO) == 'o'
    ensures FoldChar(CapitalC) == 'c' && FoldChar(SmallC) == 'c'
    ensures forall c :: IsAsciiUpper(c) ==> FoldChar(c) == (c as int + 32) as char
    ensures forall c :: !IsTurkishLetter(c) && !IsAsciiUpper(c) ==> FoldChar(c) == c
  {
  }

  /** Normalised text holds no Turkish letter and no ASCII capital. */
  lemma NormalizeAlphabet(s: string)
    ensures forall i :: 0 <= i < |Normalize(s)| ==>
      !IsTurkishLetter(Normalize(s)[i]) && !IsAsciiUpper(Normalize(s)[i])
  {
    NormalizeIsTrimOfFolded(s);
    FoldedClean(s);
    TrimKeepsClean(Folded(s));
  }

  /** Text with no Turkish letter and no ASCII capital. */
  predicate Clean(t: string)
  {
    forall i :: 0 <= i < |t| ==> !IsTurkishLetter(t[i]) && !IsAsciiUpper(t[i])
  }

  lemma FoldedClean(s: string)
    ensures Clean(Folded(s))
  {
    forall i | 0 <= i < |s| ensures !IsTurkishLetter(Folded(s)[i]) && !IsAsciiUpper(Folded(s)[i]) {
      FoldCharAlphabet(s[i]);
    }
  }

  lemma TrimKeepsClean(m: string)
    requires Clean(m)
    ensures Clean(Trim(m))
  {
    var r := Trim(m);
    var a := SkipSpace(m, 0);
    forall i | 0 <= i < |r| ensures !IsTurkishLetter(r[i]) && !IsAsciiUpper(r[i]) {
      assert r[i] == m[a + i];
    }
  }

  /** Normalising never makes text longer, and its result is trimmed. */
  lemma NormalizeShape(s: string)
    ensures |Normalize(s)| <= |s|
    ensures Normalize(s) == [] || (!IsWhitespace(Normalize(s)[0]) && !IsWhitespace(Normalize(s)[|Normalize(s)| - 1]))
  {
  }

  /** Trimming text that is already trimmed changes nothing. */
  lemma TrimTrimmed(s: string)
    requires s == [] || (!IsWhitespace(s[0]) && !IsWhitespace(s[|s| - 1]))
    ensures Trim(s) == s
  {
  }

  /** Text that folding leaves alone at every position. */
  predicate FoldFixed(t: string)
  {
    forall i :: 0 <= i < |t| ==> FoldChar(t[i]) == t[i]
  }

  lemma FoldedIsFixed(s: string)
    ensures FoldFixed(Folded(s))
  {
    forall i | 0 <= i < |s| ensures FoldChar(Folded(s)[i]) == Folded(s)[i] {
      FoldCharAlphabet(s[i]);
    }
  }

  lemma TrimKeepsFixed(m: string)
    requires FoldFixed(m)
    ensures FoldFixed(Trim(m))
  {
    var r := Trim(m);
    var a := SkipSpace(m, 0);
    forall i | 0 <= i < |r| ensures FoldChar(r[i]) == r[i] {
      assert r[i] == m[a + i];
    }
  }

  lemma FoldedOfFixed(t: string)
    requires FoldFixed(t)
    ensures Folded(t) == t
  {
  }

  /** Normalising twice is normalising once. */
  lemma NormalizeIdempotent(s: string)
    ensures Normalize(Normalize(s)) == Normalize(s)
  {
    var f := Folded(s);
    var r := Trim(f);
    NormalizeIsTrimOfFolded(s);
    assert Normalize(s) == r;
    FoldedIsFixed(s);
    TrimKeepsFixed(f);
    FoldedOfFixed(r);
    NormalizeIsTrimOfFolded(r);
    assert Normalize(r) == Trim(r);
    TrimTrimmed(r);
  }

  /** The same, for `normalizeText` on the value it returned. */
  lemma NormalizeTextIdempotent(text: JsValue)
    requires NormalizeText(text).Ok?
    ensures NormalizeText(Str(NormalizeText(text).value)) == NormalizeText(text)
  {
    if text.Str? && Truthy(text) {
      NormalizeIdempotent(text.s);
    }
  }

  /** Falsy arguments and the empty string all give the empty string. */
  lemma NormalizeEmpty()
    ensures Normalize("") == ""
    ensures NormalizeText(Str("")) == Ok("")
    ensures forall v :: !Truthy(v) ==> NormalizeText(v) == Ok("")
  {
  }
}
