/**
 * The decision taken by `validateField`: a fixed sequence of checks on the
 * trimmed value of one field, the first failing check giving the message.
 * The effect on the field's classes lives in module Forms.
 */
module Validation {
  import opened Text
  import opened Patterns

  datatype Option<T> = None | Some(value: T)

  /** The field's control: its input `type`, or a `<select>` element (whose
      type is never email, tel or password). */
  datatype Kind = Plain | Email | Tel | Password | Select

  /** What the validator reads of a field besides its value: its kind, its
      `id` attribute and whether it carries the `required` attribute. */
  datatype Field = Field(kind: Kind, id: string, required: bool)

  /** The checks of `validateField`, in the order it makes them. */
  datatype Rule = RequiredRule | EmailRule | PhoneRule | PasswordLengthRule
                | PasswordMixRule | ConfirmRule | NameRule | SelectRule

  /** `true`, or `false` with the check that refused the value. */
  datatype Verdict = Accept | Reject(rule: Rule)

  const PrimaryId := "password"
  const ConfirmId := "confirmPassword"
  const NameId := "name"

  /** The text `showError` puts into the field's error slot. */
  function MessageOf(rule: Rule): string {
    match rule
    case RequiredRule => "This field is required"
    case EmailRule => "Please enter a valid email address"
    case PhoneRule => "Please enter a valid phone number"
    case PasswordLengthRule => "Password must be at least 8 characters"
    case PasswordMixRule => "Password must contain uppercase, lowercase, and number"
    case ConfirmRule => "Passwords do not match"
    case NameRule => "Name must be at least 2 characters"
    case SelectRule => "Please select an option"
  }

  /** The primary password field: only it is subject to the password rules. */
  predicate IsPrimary(f: Field) { f.kind == Password && f.id == PrimaryId }

  /** `validateField(field)`. `raw` is the field's value and `primary` the raw
      value of the document's element with id "password", if there is one. */
  function Validate(f: Field, raw: string, primary: Option<string>): Verdict {
    Decide(f, Trim(raw), primary)
  }

  /** The checks of `validateField` on the trimmed value, each returning early. */
  function Decide(f: Field, value: string, primary: Option<string>): Verdict {
    if f.required && value == [] then Reject(RequiredRule)
    else if f.kind == Email && value != [] && !IsEmail(value) then Reject(EmailRule)
    else if f.kind == Tel && value != [] && !IsPhone(value) then Reject(PhoneRule)
    else if IsPrimary(f) && value != [] && |value| < 8 then Reject(PasswordLengthRule)
    else if IsPrimary(f) && value != [] && !HasComposition(value) then Reject(PasswordMixRule)
    else if f.id == ConfirmId && primary.Some? && value != primary.value then Reject(ConfirmRule)
    else if f.id == NameId && value != [] && |value| < 2 then Reject(NameRule)
    else if f.kind == Select && f.required && value == [] then Reject(SelectRule)
    else Accept
  }

  // ---------------------------------------------------------------------------
  // The checks as an ordered rule list; the e-mail and phone rules read their
  // expressions as languages, the others repeat the checks' conditions
  // ---------------------------------------------------------------------------

  const RuleOrder: seq<Rule> := [RequiredRule, EmailRule, PhoneRule, PasswordLengthRule,
                                 PasswordMixRule, ConfirmRule, NameRule, SelectRule]

  /** Whether `rule`, taken in isolation, objects to the trimmed `value`. The
      composition rule does not look at the length: the length rule comes first. */
  ghost predicate Fires(rule: Rule, f: Field, value: string, primary: Option<string>) {
    match rule
    case RequiredRule => f.required && value == []
    case EmailRule => f.kind == Email && value != [] && !EmailPattern(value)
    case PhoneRule => f.kind == Tel && value != [] && !(PhonePattern(value) && |StripNonDigits(value)| >= 10)
    case PasswordLengthRule => IsPrimary(f) && value != [] && |value| < 8
    case PasswordMixRule => IsPrimary(f) && value != [] && !HasComposition(value)
    case ConfirmRule => f.id == ConfirmId && primary.Some? && value != primary.value
    case NameRule => f.id == NameId && |value| == 1
    case SelectRule => f.kind == Select && f.required && value == []
  }

  /** The verdict of the rules from position `k` of the order on: the message
      of the first that fires, or acceptance when none does. */
  ghost function FirstFiring(k: nat, f: Field, value: string, primary: Option<string>): Verdict
    requires k <= |RuleOrder|
    decreases |RuleOrder| - k
  {
    if k == |RuleOrder| then Accept
    else if Fires(RuleOrder[k], f, value, primary) then Reject(RuleOrder[k])
    else FirstFiring(k + 1, f, value, primary)
  }

  /** The validator is the first-firing-rule reading of the eight rules. */
  lemma ValidateIsFirstFiring(f: Field, raw: string, primary: Option<string>)
    ensures Validate(f, raw, primary) == FirstFiring(0, f, Trim(raw), primary)
  {
    DecideIsFirstFiring(f, Trim(raw), primary);
  }

  lemma DecideIsFirstFiring(f: Field, value: string, primary: Option<string>)
    ensures Decide(f, value, primary) == FirstFiring(0, f, value, primary)
  {
    EmailMatchesPattern(value);
    PhoneShapeMatchesPattern(value);
    assert Fires(EmailRule, f, value, primary) <==> f.kind == Email && value != [] && !IsEmail(value);
    assert Fires(PhoneRule, f, value, primary) <==> f.kind == Tel && value != [] && !IsPhone(value);
    var tail := FirstFiring(5, f, value, primary);
    assert FirstFiring(8, f, value, primary) == Accept;
    assert FirstFiring(7, f, value, primary) ==
      if Fires(SelectRule, f, value, primary) then Reject(SelectRule) else Accept;
    assert FirstFiring(6, f, value, primary) ==
      if Fires(NameRule, f, value, primary) then Reject(NameRule) else FirstFiring(7, f, value, primary);
    assert tail ==
      if Fires(ConfirmRule, f, value, primary) then Reject(ConfirmRule) else FirstFiring(6, f, value, primary);
    assert FirstFiring(4, f, value, primary) ==
      if Fires(PasswordMixRule, f, value, primary) then Reject(PasswordMixRule) else tail;
    assert FirstFiring(3, f, value, primary) ==
      if Fires(PasswordLengthRule, f, value, primary) then Reject(PasswordLengthRule) else FirstFiring(4, f, value, primary);
    assert FirstFiring(2, f, value, primary) ==
      if Fires(PhoneRule, f, value, primary) then Reject(PhoneRule) else FirstFiring(3, f, value, primary);
    assert FirstFiring(1, f, value, primary) ==
      if Fires(EmailRule, f, value, primary) then Reject(EmailRule) else FirstFiring(2, f, value, primary);
  }

  lemma {:induction false} FirstFiringAccepts(k: nat, f: Field, value: string, primary: Option<string>)
    requires k <= |RuleOrder|
    ensures FirstFiring(k, f, value, primary) == Accept <==>
            forall j :: k <= j < |RuleOrder| ==> !Fires(RuleOrder[j], f, value, primary)
    decreases |RuleOrder| - k
  {
    if k < |RuleOrder| {
      FirstFiringAccepts(k + 1, f, value, primary);
    }
  }

  lemma {:induction false} FirstFiringRejects(k: nat, f: Field, value: string, primary: Option<string>)
    requires k <= |RuleOrder|
    requires FirstFiring(k, f, value, primary).Reject?
    ensures exists j :: k <= j < |RuleOrder| && Fires(RuleOrder[j], f, value, primary) &&
                        FirstFiring(k, f, value, primary).rule == RuleOrder[j] &&
                        forall i :: k <= i < j ==> !Fires(RuleOrder[i], f, value, primary)
    decreases |RuleOrder| - k
  {
    if !Fires(RuleOrder[k], f, value, primary) {
      FirstFiringRejects(k + 1, f, value, primary);
    }
  }

  /** `validateField` returns true exactly when none of the eight rules fires. */
  lemma AcceptExactlyWhenNoRuleFires(f: Field, raw: string, primary: Option<string>)
    ensures Validate(f, raw, primary) == Accept <==>
            forall j :: 0 <= j < |RuleOrder| ==> !Fires(RuleOrder[j], f, Trim(raw), primary)
  {
    ValidateIsFirstFiring(f, raw, primary);
    FirstFiringAccepts(0, f, Trim(raw), primary);
  }

  /** A rejection carries the message of the first rule in the order that fires. */
  lemma RejectionIsFirstFiringRule(f: Field, raw: string, primary: Option<string>)
    requires Validate(f, raw, primary).Reject?
    ensures exists j :: 0 <= j < |RuleOrder| && Fires(RuleOrder[j], f, Trim(raw), primary) &&
                        Validate(f, raw, primary).rule == RuleOrder[j] &&
                        forall i :: 0 <= i < j ==> !Fires(RuleOrder[i], f, Trim(raw), primary)
  {
    ValidateIsFirstFiring(f, raw, primary);
    FirstFiringRejects(0, f, Trim(raw), primary);
  }

  // ---------------------------------------------------------------------------
  // The rules stated one by one
  // ---------------------------------------------------------------------------

  /** The required message is given exactly to a required field whose value is
      all white space, whatever the field's kind. */
  lemma RequiredVerdict(f: Field, raw: string, primary: Option<string>)
    ensures Validate(f, raw, primary) == Reject(RequiredRule) <==> f.required && AllWhite(raw)
  {
    TrimEmpty(raw);
  }

  /** The select rule can never decide: a required select with no option is
      caught first by the required rule. */
  lemma SelectRuleUnreachable(f: Field, raw: string, primary: Option<string>)
    ensures Validate(f, raw, primary) != Reject(SelectRule)
    ensures f.kind == Select && f.required && AllWhite(raw) ==> Validate(f, raw, primary) == Reject(RequiredRule)
  {
    TrimEmpty(raw);
  }

  /** An e-mail field with a non-blank value gets the e-mail message exactly
      when the trimmed value is not in the language of the e-mail expression. */
  lemma EmailVerdict(f: Field, raw: string, primary: Option<string>)
    requires f.kind == Email && !AllWhite(raw)
    ensures Validate(f, raw, primary) == Reject(EmailRule) <==> !EmailPattern(Trim(raw))
  {
    TrimEmpty(raw);
    EmailMatchesPattern(Trim(raw));
  }

  /** An e-mail field that is not the confirmation field is accepted exactly
      when its value is blank and optional, or matches the e-mail expression. */
  lemma EmailAcceptance(f: Field, raw: string, primary: Option<string>)
    requires f.kind == Email && f.id != ConfirmId
    ensures Validate(f, raw, primary) == Accept <==>
            if AllWhite(raw) then !f.required else EmailPattern(Trim(raw))
  {
    TrimEmpty(raw);
    EmailMatchesPattern(Trim(raw));
  }

  /** A telephone field with a non-blank value gets the phone message exactly
      when the trimmed value is not an optional `+` followed by digits, white
      space, hyphens and parentheses, or has fewer than ten digits. */
  lemma PhoneVerdict(f: Field, raw: string, primary: Option<string>)
    requires f.kind == Tel && !AllWhite(raw)
    ensures Validate(f, raw, primary) == Reject(PhoneRule) <==>
            !(PhonePattern(Trim(raw)) && |StripNonDigits(Trim(raw))| >= 10)
  {
    TrimEmpty(raw);
    PhoneShapeMatchesPattern(Trim(raw));
  }

  /** The primary password field with a non-blank value: under 8 characters
      always gives the length message, whatever its composition; from 8 on the
      composition message is given exactly when the look-ahead test fails; and
      the field is accepted exactly when both hold. */
  lemma PasswordVerdict(f: Field, raw: string, primary: Option<string>)
    requires IsPrimary(f) && !AllWhite(raw)
    ensures |Trim(raw)| < 8 ==> Validate(f, raw, primary) == Reject(PasswordLengthRule)
    ensures |Trim(raw)| >= 8 ==> (Validate(f, raw, primary) == Reject(PasswordMixRule) <==> !HasComposition(Trim(raw)))
    ensures Validate(f, raw, primary) == Accept <==> |Trim(raw)| >= 8 && HasComposition(Trim(raw))
  {
    TrimEmpty(raw);
  }

  /** The confirmation field (when no earlier rule applies to it) is rejected
      for a mismatch exactly when its trimmed value differs from the primary
      field's raw value, and is otherwise accepted. Nothing is required of the
      primary value: the rule does not ask whether it is itself valid. */
  lemma ConfirmVerdict(f: Field, raw: string, primary: Option<string>)
    requires f.id == ConfirmId && f.kind != Email && f.kind != Tel
    requires !(f.required && AllWhite(raw))
    ensures Validate(f, raw, primary) == Reject(ConfirmRule) <==> primary.Some? && Trim(raw) != primary.value
    ensures Validate(f, raw, primary) == Accept <==> !(primary.Some? && Trim(raw) != primary.value)
  {
    TrimEmpty(raw);
  }

  /** An optional, blank confirmation field is still rejected when the primary
      password is not empty. */
  lemma BlankOptionalConfirmRejected(f: Field, raw: string, password: string)
    requires f.id == ConfirmId && !f.required && AllWhite(raw) && password != []
    ensures Validate(f, raw, Some(password)) == Reject(ConfirmRule)
  {
    TrimEmpty(raw);
  }

  /** Because the confirmation value is trimmed and the primary one is not, a
      password typed with white space at either end is never confirmed, even
      when the very same text is typed into the confirmation field. */
  lemma PaddedPasswordNeverConfirms(f: Field, password: string)
    requires f.id == ConfirmId && f.kind != Email && f.kind != Tel
    requires !AllWhite(password) && Trim(password) != password
    ensures Validate(f, password, Some(password)) == Reject(ConfirmRule)
  {
    TrimEmpty(password);
  }

  /** The name field (when no earlier rule applies to it) is rejected for its
      length exactly when its trimmed value is one character long. */
  lemma NameVerdict(f: Field, raw: string, primary: Option<string>)
    requires f.id == NameId && f.kind != Email && f.kind != Tel
    ensures Validate(f, raw, primary) == Reject(NameRule) <==> |Trim(raw)| == 1
  {
    TrimEmpty(raw);
  }

  // ---------------------------------------------------------------------------
  // Examples
  // ---------------------------------------------------------------------------

  lemma EmailAcceptsExample()
    ensures IsEmail("a@b.co") && EmailPattern("a@b.co")
  {
    assert IndexOfAt("a@b.co") == 1;
    assert "a@b.co"[2..] == "b.co";
    assert "b.co"[1] == '.';
    EmailMatchesPattern("a@b.co");
  }

  lemma EmailRejectsExamples()
    ensures !IsEmail("a@b") && !EmailPattern("a@b")
    ensures !IsEmail("a b@c.com") && !EmailPattern("a b@c.com")
  {
    assert IndexOfAt("a@b") == 1;
    assert "a@b"[2..] == "b";
    EmailMatchesPattern("a@b");
    assert IndexOfAt("a b@c.com") == 3;
    assert IsWhite("a b@c.com"[..3][1]);
    EmailMatchesPattern("a b@c.com");
  }

  lemma PhoneAcceptsExample()
    ensures IsPhone("555-123-4567")
  {
    TenDigitsExample();
    DialCharsExample();
  }

  /** Helper of `PhoneAcceptsExample`: the shape half. */
  lemma DialCharsExample()
    ensures HasPhoneShape("555-123-4567")
  {
    var a, b, c := "555-", "123-", "4567";
    assert a + (b + c) == "555-123-4567";
    assert AllDialChars(a) && AllDialChars(b) && AllDialChars(c);
    AllDialCharsAppend(b, c);
    AllDialCharsAppend(a, b + c);
  }

  /** Helper of `PhoneAcceptsExample`: the digit-count half. */
  lemma TenDigitsExample()
    ensures |StripNonDigits("555-123-4567")| == 10
  {
    var a, b, c := "555-", "123-", "4567";
    assert a + (b + c) == "555-123-4567";
    StripNonDigitsAppend(a, b + c);
    StripNonDigitsAppend(b, c);
    assert |StripNonDigits(a)| == 3;
    assert |StripNonDigits(b)| == 3;
    assert |StripNonDigits(c)| == 4;
  }

  lemma PhoneRejectsExample()
    ensures !IsPhone("12345")
  {
    assert |StripNonDigits("12345")| <= 5;
  }

  lemma PasswordAcceptsExample()
    ensures Validate(Field(Password, PrimaryId, true), "Abcdefg1", None) == Accept
  {
    var v := "Abcdefg1";
    TrimFixed(v);
    assert IsAsciiUpper(v[0]) && IsAsciiLower(v[1]) && IsAsciiDigit(v[7]);
    assert Ahead(v, 0, IsAsciiLower) && Ahead(v, 0, IsAsciiUpper) && Ahead(v, 0, IsAsciiDigit);
  }

  lemma PasswordRejectsExamples()
    ensures Validate(Field(Password, PrimaryId, true), "abcdefgh", None) == Reject(PasswordMixRule)
    ensures Validate(Field(Password, PrimaryId, true), "Abc1", None) == Reject(PasswordLengthRule)
  {
    var v := "abcdefgh";
    TrimFixed(v);
    TrimFixed("Abc1");
    assert forall k :: 0 <= k < |v| ==> IsAsciiLower(v[k]);
    if HasComposition(v) {
      CompositionHasAllClasses(v);
    }
  }
}
