/**
 * Character classes and the two string operations the form validator relies on:
 * `String.prototype.trim` and the filter that deletes every `\D` character.
 * Strings are sequences of characters; the ASCII classes are those of the
 * regular expressions `[a-z]`, `[A-Z]` and `\d`.
 */
module Text {

  /** ECMAScript WhiteSpace and LineTerminator code points: what `trim` strips
      and what the regular-expression class `\s` matches. */
  predicate IsWhite(c: char) {
    var n := c as int;
    n == 0x09 || n == 0x0A || n == 0x0B || n == 0x0C || n == 0x0D || n == 0x20 ||
    n == 0xA0 || n == 0x1680 || (0x2000 <= n <= 0x200A) || n == 0x2028 ||
    n == 0x2029 || n == 0x202F || n == 0x205F || n == 0x3000 || n == 0xFEFF
  }

  /** The characters the regular-expression wildcard `.` does not match. */
  predicate IsLineTerminator(c: char) {
    var n := c as int;
    n == 0x0A || n == 0x0D || n == 0x2028 || n == 0x2029
  }

  predicate IsAsciiLower(c: char) { 'a' <= c <= 'z' }
  predicate IsAsciiUpper(c: char) { 'A' <= c <= 'Z' }
  predicate IsAsciiDigit(c: char) { '0' <= c <= '9' }

  /** `[^a-zA-Z0-9]` */
  predicate IsSymbol(c: char) { !IsAsciiLower(c) && !IsAsciiUpper(c) && !IsAsciiDigit(c) }

  /** Some character of `s` lies in the class `cls` (an unanchored one-class regex test). */
  predicate Contains(s: string, cls: char -> bool) {
    exists i :: 0 <= i < |s| && cls(s[i])
  }

  predicate AllWhite(s: string) {
    forall k :: 0 <= k < |s| ==> IsWhite(s[k])
  }

  lemma ContainsAppend(s: string, t: string, cls: char -> bool)
    requires Contains(s, cls)
    ensures Contains(s + t, cls)
  {
    var i :| 0 <= i < |s| && cls(s[i]);
    assert (s + t)[i] == s[i];
  }

  /** The first position at or after `i` that does not hold white space. */
  function SkipWhite(s: string, i: nat): (j: nat)
    requires i <= |s|
    ensures i <= j <= |s|
    ensures forall k :: i <= k < j ==> IsWhite(s[k])
    ensures j < |s| ==> !IsWhite(s[j])
    decreases |s| - i
  {
    if i < |s| && IsWhite(s[i]) then SkipWhite(s, i + 1) else i
  }

  /** The position just after the last non-white character before `j`. */
  function BackWhite(s: string, j: nat): (i: nat)
    requires j <= |s|
    ensures i <= j
    ensures forall k :: i <= k < j ==> IsWhite(s[k])
    ensures i > 0 ==> !IsWhite(s[i - 1])
  {
    if j > 0 && IsWhite(s[j - 1]) then BackWhite(s, j - 1) else j
  }

  /** `r` is the slice of `s` that starts at `i`, and everything of `s` outside it is white. */
  ghost predicate WhiteAround(s: string, r: string, i: int) {
    0 <= i <= |s| - |r| && r == s[i..i + |r|] &&
    (forall k :: 0 <= k < i ==> IsWhite(s[k])) &&
    (forall k :: i + |r| <= k < |s| ==> IsWhite(s[k]))
  }

  /** `String.prototype.trim`: the slice of `s` left once the white space at
      both ends is removed. */
  function Trim(s: string): (r: string)
    ensures r == [] || (!IsWhite(r[0]) && !IsWhite(r[|r| - 1]))
    ensures exists i :: WhiteAround(s, r, i)
  {
    var a := SkipWhite(s, 0);
    var b := BackWhite(s, |s|);
    if a < b then
      assert WhiteAround(s, s[a..b], a);
      s[a..b]
    else
      assert a == |s|;
      assert WhiteAround(s, [], 0);
      []
  }

  /** The trimmed value is empty exactly when the raw value is all white space. */
  lemma TrimEmpty(s: string)
    ensures Trim(s) == [] <==> AllWhite(s)
  {
    var r := Trim(s);
    var i :| WhiteAround(s, r, i);
    if r != [] {
      assert s[i] == r[0];
    }
  }

  /** A value with no white space at either end is its own trim. */
  lemma TrimFixed(s: string)
    requires s == [] || (!IsWhite(s[0]) && !IsWhite(s[|s| - 1]))
    ensures Trim(s) == s
  {
    var r := Trim(s);
    var i :| WhiteAround(s, r, i);
    if s != [] {
      assert i == 0;
      assert i + |r| == |s|;
    }
  }

  /** The trimmed value has no white space at either end, so trimming is idempotent. */
  lemma TrimIdempotent(s: string)
    ensures Trim(Trim(s)) == Trim(s)
  {
    TrimFixed(Trim(s));
  }

  /** Every `\D` character deleted: the ASCII digits of `s`, in order. */
  function StripNonDigits(s: string): (r: string)
    ensures |r| <= |s|
    ensures forall k :: 0 <= k < |r| ==> IsAsciiDigit(r[k])
  {
    if s == [] then []
    else (if IsAsciiDigit(s[0]) then [s[0]] else []) + StripNonDigits(s[1..])
  }

  /** The filter keeps every digit as often as it occurs, and nothing else. */
  lemma {:induction false} StripNonDigitsCounts(s: string, c: char)
    ensures multiset(StripNonDigits(s))[c] == if IsAsciiDigit(c) then multiset(s)[c] else 0
  {
    if s != [] {
      StripNonDigitsCounts(s[1..], c);
      assert s == [s[0]] + s[1..];
    }
  }

  /** The digit filter works character by character, so it distributes over concatenation. */
  lemma {:induction false} StripNonDigitsAppend(s: string, t: string)
    ensures StripNonDigits(s + t) == StripNonDigits(s) + StripNonDigits(t)
  {
    if s != [] {
      assert (s + t)[0] == s[0];
      assert (s + t)[1..] == s[1..] + t;
      StripNonDigitsAppend(s[1..], t);
      var head := if IsAsciiDigit(s[0]) then [s[0]] else [];
      assert StripNonDigits(s + t) == head + (StripNonDigits(s[1..]) + StripNonDigits(t));
      assert StripNonDigits(s) == head + StripNonDigits(s[1..]);
      assert head + (StripNonDigits(s[1..]) + StripNonDigits(t)) == (head + StripNonDigits(s[1..])) + StripNonDigits(t);
    } else {
      assert s + t == t;
    }
  }
}
