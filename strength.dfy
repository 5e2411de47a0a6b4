/**
 * The password strength meter of `updatePasswordStrength`: four independent
 * conditions on the raw (untrimmed) value, each worth one point, and the
 * label the total selects.
 */
module Strength {
  import opened Text

  /** No fill and no text, or the weak, medium or strong bar. */
  datatype Label = Blank | Weak | Medium | Strong

  /** What the meter shows: the score, the bar's band and the caption text. */
  datatype Assessment = Assessment(score: nat, rank: Label, caption: string)

  predicate LongEnough(v: string) { |v| >= 8 }
  /** A letter of `[a-z]` and a letter of `[A-Z]`. */
  predicate MixedCase(v: string) { Contains(v, IsAsciiLower) && Contains(v, IsAsciiUpper) }
  /** A character of `\d`. */
  predicate HasDigit(v: string) { Contains(v, IsAsciiDigit) }
  /** A character of `[^a-zA-Z0-9]`. */
  predicate HasSymbol(v: string) { Contains(v, IsSymbol) }

  function Point(b: bool): nat { if b then 1 else 0 }

  /** The counter `strength` after its four conditional increments: between 0
      and 4, 0 exactly when no condition holds and 4 exactly when all do. */
  function Score(v: string): (r: nat)
    ensures r <= 4
    ensures r == 0 <==> !LongEnough(v) && !MixedCase(v) && !HasDigit(v) && !HasSymbol(v)
    ensures r == 4 <==> LongEnough(v) && MixedCase(v) && HasDigit(v) && HasSymbol(v)
  {
    Point(LongEnough(v)) + Point(MixedCase(v)) + Point(HasDigit(v)) + Point(HasSymbol(v))
  }

  /** The branch `updatePasswordStrength` takes. */
  function LabelOf(v: string): Label {
    var score := Score(v);
    if score == 0 || |v| == 0 then Blank
    else if score <= 2 then Weak
    else if score == 3 then Medium
    else Strong
  }

  /** The text put into the meter's caption. */
  function Caption(l: Label): string {
    match l
    case Blank => ""
    case Weak => "Weak password"
    case Medium => "Medium password"
    case Strong => "Strong password"
  }

  /** `updatePasswordStrength` on the value `v`: the caption is empty exactly
      when the score is 0, and the strong caption appears exactly when all four
      conditions hold. */
  function Assess(v: string): (r: Assessment)
    ensures r.score <= 4
    ensures r.caption == [] <==> r.score == 0
    ensures r.caption == "Strong password" <==> LongEnough(v) && MixedCase(v) && HasDigit(v) && HasSymbol(v)
  {
    Assessment(Score(v), LabelOf(v), Caption(LabelOf(v)))
  }

  /** The empty value scores 0, so the test `value.length === 0` never changes
      the label: it is blank exactly when the score is 0. */
  lemma BlankExactlyAtZero(v: string)
    ensures |v| == 0 ==> Score(v) == 0
    ensures LabelOf(v) == Blank <==> Score(v) == 0
  {
  }

  /** Each label stands for a band of scores; the boundary at 3 is medium. */
  lemma LabelBands(v: string)
    ensures LabelOf(v) == Weak <==> 1 <= Score(v) <= 2
    ensures LabelOf(v) == Medium <==> Score(v) == 3
    ensures LabelOf(v) == Strong <==> LongEnough(v) && MixedCase(v) && HasDigit(v) && HasSymbol(v)
  {
  }

  /** Typing more characters never lowers the score. */
  lemma ScoreMonotone(v: string, w: string)
    ensures Score(v) <= Score(v + w)
  {
    if Contains(v, IsAsciiLower) { ContainsAppend(v, w, IsAsciiLower); }
    if Contains(v, IsAsciiUpper) { ContainsAppend(v, w, IsAsciiUpper); }
    if Contains(v, IsAsciiDigit) { ContainsAppend(v, w, IsAsciiDigit); }
    if Contains(v, IsSymbol) { ContainsAppend(v, w, IsSymbol); }
  }

  /** Eight lower-case letters earn only the length point. */
  lemma WeakExample()
    ensures Score("abcdefgh") == 1 && LabelOf("abcdefgh") == Weak
  {
    var v := "abcdefgh";
    assert IsAsciiLower(v[0]);
    assert forall k :: 0 <= k < |v| ==> IsAsciiLower(v[k]);
  }

  lemma MediumExample()
    ensures Score("Abcdefgh1") == 3 && LabelOf("Abcdefgh1") == Medium
  {
    var v := "Abcdefgh1";
    assert IsAsciiUpper(v[0]) && IsAsciiLower(v[1]) && IsAsciiDigit(v[8]);
    assert forall k :: 0 <= k < |v| ==> !IsSymbol(v[k]);
  }

  lemma StrongExample()
    ensures Score("Abcdefgh1!") == 4 && LabelOf("Abcdefgh1!") == Strong
  {
    var v := "Abcdefgh1!";
    assert IsAsciiUpper(v[0]) && IsAsciiLower(v[1]) && IsAsciiDigit(v[8]) && IsSymbol(v[9]);
  }

  /** A short value of one letter case scores 0 and shows nothing although it
      is not empty. */
  lemma BlankExample()
    ensures Score("abc") == 0 && LabelOf("abc") == Blank && LabelOf("") == Blank
  {
    var v := "abc";
    assert forall k :: 0 <= k < |v| ==> IsAsciiLower(v[k]);
  }
}
