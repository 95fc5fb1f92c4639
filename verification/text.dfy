/** Character-level helpers shared by both services. Java's
    `String.toUpperCase()` is modelled on ASCII letters only. */
module Text {

  predicate IsLowerAscii(c: char) { 'a' <= c <= 'z' }

  predicate IsDigit(c: char) { '0' <= c <= '9' }

  /** Upper-cases one ASCII letter and leaves every other character alone. */
  function UpperChar(c: char): (u: char)
    ensures IsLowerAscii(c) ==> u != c && 'A' <= u <= 'Z'
    ensures !IsLowerAscii(c) ==> u == c
  {
    if IsLowerAscii(c) then (c as int - 32) as char else c
  }

  /** The lower-case counterpart of an upper-case ASCII letter. */
  function LowerChar(c: char): (l: char)
    ensures 'A' <= c <= 'Z' ==> IsLowerAscii(l) && UpperChar(l) == c
    ensures !('A' <= c <= 'Z') ==> l == c
  {
    if 'A' <= c <= 'Z' then (c as int + 32) as char else c
  }

  /** `s.toUpperCase()`, character by character. */
  function Upper(s: string): (u: string)
    ensures |u| == |s|
    ensures forall i :: 0 <= i < |s| ==> u[i] == UpperChar(s[i])
  {
    if |s| == 0 then "" else [UpperChar(s[0])] + Upper(s[1..])
  }

  /** `a` spells `word` (an upper-case word) up to the case of its letters. */
  predicate CaseVariantOf(a: string, word: string)
  {
    |a| == |word| && forall i :: 0 <= i < |a| ==> a[i] == word[i] || a[i] == LowerChar(word[i])
  }

  /** For an upper-case word, upper-casing `a` yields the word exactly when
      `a` is one of its case variants. */
  lemma UpperMatchesCaseVariant(a: string, word: string)
    requires forall i :: 0 <= i < |word| ==> !IsLowerAscii(word[i])
    ensures Upper(a) == word <==> CaseVariantOf(a, word)
  {
    if Upper(a) == word {
      forall i | 0 <= i < |a|
        ensures a[i] == word[i] || a[i] == LowerChar(word[i])
      {
        assert UpperChar(a[i]) == word[i];
      }
    }
    if CaseVariantOf(a, word) {
      forall i | 0 <= i < |a|
        ensures Upper(a)[i] == word[i]
      {
        if a[i] != word[i] {
          assert a[i] == LowerChar(word[i]);
        }
      }
    }
  }
}
