/**
 * The three regular expressions of the field validator over the (already
 * trimmed) value. The e-mail and phone expressions are hand-made predicates,
 * each with a predicate reading the expression as the set of strings it
 * matches and a lemma that the two agree. The composition test is the
 * look-ahead reading itself, related to the plain three-class test.
 */
module Patterns {
  import opened Text

  // ---------------------------------------------------------------------------
  // E-mail: /^[^\s@]+@[^\s@]+\.[^\s@]+$/
  // ---------------------------------------------------------------------------

  /** `[^\s@]` */
  predicate IsAddressChar(c: char) { !IsWhite(c) && c != '@' }

  predicate AllAddressChars(s: string) {
    forall k :: 0 <= k < |s| ==> IsAddressChar(s[k])
  }

  /** `s` splits as `local@host.tld` into three non-empty runs of `[^\s@]`. */
  ghost predicate EmailParts(s: string, local: string, host: string, tld: string) {
    s == local + "@" + host + "." + tld &&
    local != [] && host != [] && tld != [] &&
    AllAddressChars(local) && AllAddressChars(host) && AllAddressChars(tld)
  }

  /** The regular expression as a language. */
  ghost predicate EmailPattern(s: string) {
    exists local: string, host: string, tld: string :: EmailParts(s, local, host, tld)
  }

  /** Position of the first `@` of `s`, or `|s|` when there is none. */
  function IndexOfAt(s: string): (k: nat)
    ensures k <= |s|
    ensures k < |s| ==> s[k] == '@'
    ensures forall j :: 0 <= j < k ==> s[j] != '@'
  {
    if s == [] || s[0] == '@' then 0 else 1 + IndexOfAt(s[1..])
  }

  /** The part after the `@`: free of white space and `@`, with a `.` that has
      at least one character on each side. */
  predicate IsMailDomain(d: string) {
    AllAddressChars(d) && exists j :: 1 <= j < |d| - 1 && d[j] == '.'
  }

  /** The check the validator applies to an e-mail value. */
  predicate IsEmail(s: string) {
    var at := IndexOfAt(s);
    0 < at < |s| && AllAddressChars(s[..at]) && IsMailDomain(s[at + 1..])
  }

  lemma EmailMatchesPattern(s: string)
    ensures IsEmail(s) <==> EmailPattern(s)
  {
    if IsEmail(s) {
      EmailToPattern(s);
    }
    if EmailPattern(s) {
      var local: string, host: string, tld: string :| EmailParts(s, local, host, tld);
      PatternToEmail(s, local, host, tld);
    }
  }

  lemma EmailToPattern(s: string)
    requires IsEmail(s)
    ensures EmailPattern(s)
  {
    var at := IndexOfAt(s);
    var d := s[at + 1..];
    var j :| 1 <= j < |d| - 1 && d[j] == '.';
    var local, host, tld := s[..at], d[..j], d[j + 1..];
    assert d == host + [d[j]] + tld;
    assert s == local + [s[at]] + d;
    forall k | 0 <= k < |host|
      ensures IsAddressChar(host[k])
    {
      assert host[k] == d[k];
    }
    forall k | 0 <= k < |tld|
      ensures IsAddressChar(tld[k])
    {
      assert tld[k] == d[j + 1 + k];
    }
    assert EmailParts(s, local, host, tld);
  }

  lemma PatternToEmail(s: string, local: string, host: string, tld: string)
    requires EmailParts(s, local, host, tld)
    ensures IsEmail(s)
  {
    var d := host + "." + tld;
    assert s == local + "@" + d;
    var at := |local|;
    assert s[at] == '@';
    assert forall j :: 0 <= j < at ==> s[j] == local[j];
    assert IndexOfAt(s) == at;
    assert s[..at] == local;
    assert s[at + 1..] == d;
    assert d[|host|] == '.';
    forall k | 0 <= k < |d|
      ensures IsAddressChar(d[k])
    {
      if k < |host| {
        assert d[k] == host[k];
      } else if k > |host| {
        assert d[k] == tld[k - |host| - 1];
      }
    }
  }

  // ---------------------------------------------------------------------------
  // Telephone: /^\+?[\d\s-()]+$/ and at least ten digits
  // ---------------------------------------------------------------------------

  /** `[\d\s-()]`: outside Unicode mode, a `-` next to the class escape `\s` is
      a literal hyphen, so the class is digits, white space, `-`, `(` and `)`. */
  predicate IsDialChar(c: char) {
    IsAsciiDigit(c) || IsWhite(c) || c == '-' || c == '(' || c == ')'
  }

  predicate AllDialChars(s: string) {
    forall k :: 0 <= k < |s| ==> IsDialChar(s[k])
  }

  lemma AllDialCharsAppend(a: string, b: string)
    requires AllDialChars(a) && AllDialChars(b)
    ensures AllDialChars(a + b)
  {
    forall k | 0 <= k < |a + b|
      ensures IsDialChar((a + b)[k])
    {
      if k < |a| {
        assert (a + b)[k] == a[k];
      } else {
        assert (a + b)[k] == b[k - |a|];
      }
    }
  }

  /** The regular expression as a language: an optional `+` and then a
      non-empty run of the class. */
  ghost predicate PhonePattern(s: string) {
    exists body: string :: (s == body || s == "+" + body) && body != [] && AllDialChars(body)
  }

  /** The shape check: skip one leading `+`, then what is left must be a
      non-empty run of dial characters. */
  predicate HasPhoneShape(s: string) {
    var body := if s != [] && s[0] == '+' then s[1..] else s;
    body != [] && AllDialChars(body)
  }

  /** The check the validator applies to a telephone value. */
  predicate IsPhone(s: string) {
    HasPhoneShape(s) && |StripNonDigits(s)| >= 10
  }

  lemma PhoneShapeMatchesPattern(s: string)
    ensures HasPhoneShape(s) <==> PhonePattern(s)
  {
    if HasPhoneShape(s) {
      if s != [] && s[0] == '+' {
        assert s == "+" + s[1..];
      }
    }
    if PhonePattern(s) {
      var body: string :| (s == body || s == "+" + body) && body != [] && AllDialChars(body);
      if s == body {
        assert IsDialChar(s[0]);
      } else {
        assert s[1..] == body;
      }
    }
  }

  // ---------------------------------------------------------------------------
  // Password composition: /(?=.*[a-z])(?=.*[A-Z])(?=.*\d)/, unanchored
  // ---------------------------------------------------------------------------

  /** The look-ahead `(?=.*X)` at position `p`: some character of class `X`
      lies at or after `p` with no line terminator in between (`.` does not
      match one). */
  predicate Ahead(s: string, p: nat, cls: char -> bool)
    requires p <= |s|
  {
    exists i :: p <= i < |s| && cls(s[i]) &&
      forall k :: p <= k < i ==> !IsLineTerminator(s[k])
  }

  /** The test succeeds when the three look-aheads hold at one common start. */
  predicate HasComposition(s: string) {
    exists p: nat :: p <= |s| && Ahead(s, p, IsAsciiLower) && Ahead(s, p, IsAsciiUpper) && Ahead(s, p, IsAsciiDigit)
  }

  /** A value that passes has a lower-case letter, an upper-case letter and a digit. */
  lemma CompositionHasAllClasses(s: string)
    requires HasComposition(s)
    ensures Contains(s, IsAsciiLower) && Contains(s, IsAsciiUpper) && Contains(s, IsAsciiDigit)
  {
    var p: nat :| p <= |s| && Ahead(s, p, IsAsciiLower) && Ahead(s, p, IsAsciiUpper) && Ahead(s, p, IsAsciiDigit);
    var i :| p <= i < |s| && IsAsciiLower(s[i]) && forall k :: p <= k < i ==> !IsLineTerminator(s[k]);
    var j :| p <= j < |s| && IsAsciiUpper(s[j]) && forall k :: p <= k < j ==> !IsLineTerminator(s[k]);
    var d :| p <= d < |s| && IsAsciiDigit(s[d]) && forall k :: p <= k < d ==> !IsLineTerminator(s[k]);
    assert IsAsciiLower(s[i]) && IsAsciiUpper(s[j]) && IsAsciiDigit(s[d]);
  }

  /** On a single line the test means exactly "has a lower-case letter, an
      upper-case letter and a digit". */
  lemma CompositionOnOneLine(s: string)
    requires forall k :: 0 <= k < |s| ==> !IsLineTerminator(s[k])
    ensures HasComposition(s) <==> Contains(s, IsAsciiLower) && Contains(s, IsAsciiUpper) && Contains(s, IsAsciiDigit)
  {
    if HasComposition(s) {
      CompositionHasAllClasses(s);
    }
    if Contains(s, IsAsciiLower) && Contains(s, IsAsciiUpper) && Contains(s, IsAsciiDigit) {
      var i :| 0 <= i < |s| && IsAsciiLower(s[i]);
      var j :| 0 <= j < |s| && IsAsciiUpper(s[j]);
      var d :| 0 <= d < |s| && IsAsciiDigit(s[d]);
      assert Ahead(s, 0, IsAsciiLower) && Ahead(s, 0, IsAsciiUpper) && Ahead(s, 0, IsAsciiDigit);
    }
  }
}
