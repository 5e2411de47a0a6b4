# Form validation engine: a verified model

This project models the client-side form validator of a static website (`src/scripts/formValidation.js`). It also proves properties of the model.

The validator has three parts:

- **`validateField`** decides each field in a fixed order of early-returning checks on the trimmed value:
  1. required
  2. e-mail shape
  3. phone shape and digit count
  4. password length, then password composition
  5. password confirmation
  6. name length
  7. required select

  The outcome is recorded on the field as an error or a success class and shown in the field's feedback slots.
- **The strength meter** scores the raw password on four conditions and turns the score into a label.
- **The submit handler** validates every field. If all pass, `submitForm` makes the button loading and disabled and schedules a completion step. That step re-enables the button, shows a notification, resets the values and removes the classes from the `.form__input` fields.

The Dafny modules follow these parts:

- `text.dfy`, module `Text`:
  - the ECMAScript white-space set, which is what `trim` strips and what `\s` matches;
  - the ASCII letter and digit classes;
  - `Trim`;
  - the filter that keeps only digits.
- `patterns.dfy`, module `Patterns`:
  - the three regular expressions, each as a hand-written predicate;
  - for the e-mail and phone expressions, a reference predicate that reads the expression as the set of strings it matches, and a lemma that the two agree;
  - the password composition test is the look-ahead reading itself, `HasComposition`. The plain "has a lower-case letter, an upper-case letter and a digit" check always follows from it, but agrees with it in both directions only on values without line terminators (`CompositionOnOneLine`).
- `validation.dfy`, module `Validation`:
  - `Validate`, the decision of `validateField`;
  - a second reading of the same checks as an ordered list of rules, where the first rule that fires wins. Six of the eight rules repeat the conditions of `Validate`. The e-mail and phone rules use the regular-expression languages instead, so what the equivalence adds is mainly that reading. The per-rule lemmas carry the substance;
  - the per-rule properties and examples.
- `strength.dfy`, module `Strength`: the score, the label, the caption and their properties.
- `form.dfy`, module `Forms`:
  - the per-field visual state and the pure state updates of `validateField`, `showError`, `showSuccess` and the completion step;
  - the class `Form`, which holds arrays of field values and field states, the button's `loading` and `disabled` flags, the count of scheduled completions and the notifications shown. Its methods are the blur, input and submit handlers, `submitForm` and the delayed completion.

## Behaviour worth knowing

- **Score of `"abcdefgh"`.** The strength score is 1: only the length condition holds, since there is no upper-case letter, digit or symbol. The label is "weak" (`Strength.WeakExample`).
- **What completion resets.** The completion step removes the two classes only from `.form__input` fields. Select fields keep their class, and no feedback slot is hidden (`Forms.Form.Complete`).
- **What confirmation compares.** The trimmed confirmation value is compared with the raw, untrimmed password value. A password typed with white space at either end can never be confirmed, even when the same text is typed twice (`Validation.PaddedPasswordNeverConfirms`).
- **Meter and validator read different values.** The strength meter reads the raw value and the validator the trimmed one. So the same padded password can be labelled strong and still be rejected as too short (`Forms.MeterAndValidatorDisagreeOnPadding`).

## Model

| member | source | states |
|---|---|---|
| `Text.Trim` | src/scripts/formValidation.js:42 | The trimmed value is a slice of the raw value with no white space at either end, and everything outside the slice is white space. |
| `Text.TrimEmpty` | src/scripts/formValidation.js:53 | The trimmed value is empty exactly when the raw value is all white space. |
| `Text.TrimFixed` | src/scripts/formValidation.js:42 | A value with no white space at either end is its own trimmed value. |
| `Text.TrimIdempotent` | src/scripts/formValidation.js:42 | Trimming twice gives the same value as trimming once. |
| `Text.StripNonDigits` | src/scripts/formValidation.js:70 | The filter deletes every non-digit. Its result holds only ASCII digits and is no longer than the input. |
| `Text.StripNonDigitsCounts` | src/scripts/formValidation.js:70 | The filter keeps each digit exactly as often as it occurs in the input, and keeps nothing else. |
| `Text.StripNonDigitsAppend` | src/scripts/formValidation.js:70 | Filtering a concatenation is the concatenation of the filtered parts. |
| `Patterns.IndexOfAt` | src/scripts/formValidation.js:60 | Returns the position of the first `@`, or the length when there is none. |
| `Patterns.IsEmail` | src/scripts/formValidation.js:60 | The e-mail test: a non-empty part before the first `@` and a domain with a `.` inside it, with no white space and no further `@`. `Patterns.EmailMatchesPattern` proves it is exactly the expression's language. |
| `Patterns.HasPhoneShape` | src/scripts/formValidation.js:69 | The phone shape test. `Patterns.PhoneShapeMatchesPattern` proves it is exactly the expression's language. |
| `Patterns.IsPhone` | src/scripts/formValidation.js:69-70 | The phone shape plus at least ten digits. `Validation.PhoneVerdict` proves the phone message is given exactly when this fails. |
| `Patterns.HasComposition` | src/scripts/formValidation.js:82 | The three look-aheads at one common start, where `.` does not cross a line terminator. `Patterns.CompositionHasAllClasses` and `Patterns.CompositionOnOneLine` relate it to the three-class test. |
| `Patterns.EmailMatchesPattern` | src/scripts/formValidation.js:60 | The hand-written e-mail check holds exactly when the value splits as `local@host.tld`. Each of the three parts is a non-empty run with no white space and no `@`. |
| `Patterns.PhoneShapeMatchesPattern` | src/scripts/formValidation.js:69 | The phone shape check holds exactly when the value is an optional `+` followed by a non-empty run of digits, white space, `-`, `(` and `)`. |
| `Patterns.CompositionHasAllClasses` | src/scripts/formValidation.js:82 | A value that passes the three look-aheads contains a lower-case letter, an upper-case letter and a digit. |
| `Patterns.CompositionOnOneLine` | src/scripts/formValidation.js:82 | On a value without line terminators, the look-ahead test means exactly "has a lower-case letter, an upper-case letter and a digit". |
| `Validation.Validate` | src/scripts/formValidation.js:41-120 | `validateField`'s decision on the trimmed value. Its properties are the lemmas below: `Validation.ValidateIsFirstFiring`, `Validation.AcceptExactlyWhenNoRuleFires`, `Validation.RejectionIsFirstFiringRule` and the per-rule `*Verdict` lemmas. |
| `Validation.Decide` | src/scripts/formValidation.js:53-119 | The early-returning checks in source order. `Validation.DecideIsFirstFiring` proves it equals the rule-list reading. |
| `Validation.DecideIsFirstFiring` | src/scripts/formValidation.js:53-119 | On any trimmed value, the checks agree with the first rule that fires, where the e-mail and phone rules are read as their expressions' languages. |
| `Validation.MessageOf` | src/scripts/formValidation.js:54-112 | The text each check writes into the error slot, word for word. `Forms.MarkedShowsVerdict` proves that a shown error slot holds the message of the rule that fired. |
| `Validation.ValidateIsFirstFiring` | src/scripts/formValidation.js:41-120 | `validateField`'s decision equals the first-firing reading of the eight rules, taken in source order. |
| `Validation.AcceptExactlyWhenNoRuleFires` | src/scripts/formValidation.js:41-120 | A field is accepted exactly when none of the eight rules fires on its trimmed value. |
| `Validation.RejectionIsFirstFiringRule` | src/scripts/formValidation.js:41-120 | A rejection names a rule that fires, and no rule before it in the order fires. |
| `Validation.RequiredVerdict` | src/scripts/formValidation.js:53-56 | "This field is required" is given exactly to a required field whose value is all white space, whatever its kind. |
| `Validation.SelectRuleUnreachable` | src/scripts/formValidation.js:53-115 | "Please select an option" is never the verdict. A required select with no value gets the required message instead. |
| `Validation.EmailVerdict` | src/scripts/formValidation.js:59-65 | An e-mail field with a non-blank value gets the e-mail message exactly when its trimmed value does not match the e-mail expression. |
| `Validation.EmailAcceptance` | src/scripts/formValidation.js:53-65 | An e-mail field other than the confirmation field is accepted exactly when it matches the e-mail expression, or is blank and optional. |
| `Validation.PhoneVerdict` | src/scripts/formValidation.js:68-74 | A telephone field with a non-blank value gets the phone message exactly when it fails the phone expression or has fewer than ten digits. |
| `Validation.PasswordVerdict` | src/scripts/formValidation.js:77-90 | For the non-blank primary password field: under 8 characters gives the length message, whatever the composition. From 8 characters on, the composition message is given exactly when the look-ahead test fails. The field is accepted exactly when both checks pass. |
| `Validation.ConfirmVerdict` | src/scripts/formValidation.js:93-99 | A confirmation field gets "Passwords do not match" exactly when a primary field exists and its raw value differs from the trimmed confirmation value; otherwise it is accepted. This holds for a field that is neither e-mail nor telephone and is not a blank required field. Nothing is assumed about the primary value's own validity. |
| `Validation.BlankOptionalConfirmRejected` | src/scripts/formValidation.js:93-99 | An optional, blank confirmation field is still rejected when the primary password is not empty. |
| `Validation.PaddedPasswordNeverConfirms` | src/scripts/formValidation.js:42-99 | A password with white space at either end is rejected as a mismatch even when the confirmation field holds the same text. |
| `Validation.NameVerdict` | src/scripts/formValidation.js:102-107 | A name field that is neither e-mail nor telephone gets the length message exactly when its trimmed value is one character long. |
| `Validation.EmailAcceptsExample` | src/scripts/formValidation.js:60-61 | `a@b.co` passes the e-mail check. |
| `Validation.EmailRejectsExamples` | src/scripts/formValidation.js:60-61 | `a@b` and `a b@c.com` fail the e-mail check. |
| `Validation.PhoneAcceptsExample` | src/scripts/formValidation.js:69-70 | `555-123-4567` passes the phone check. |
| `Validation.PhoneRejectsExample` | src/scripts/formValidation.js:70 | `12345` fails the phone check. |
| `Validation.PasswordAcceptsExample` | src/scripts/formValidation.js:77-90 | `Abcdefg1` is accepted for the primary password field. |
| `Validation.PasswordRejectsExamples` | src/scripts/formValidation.js:77-90 | `abcdefgh` gets the composition message and `Abc1` the length message. |
| `Strength.Score` | src/scripts/formValidation.js:144-148 | The score is between 0 and 4. It is 0 exactly when no condition holds and 4 exactly when all four hold. |
| `Strength.LabelOf` | src/scripts/formValidation.js:152-167 | The branch the meter takes. `Strength.BlankExactlyAtZero` and `Strength.LabelBands` prove which scores give which label. |
| `Strength.Caption` | src/scripts/formValidation.js:154-165 | The caption text of each label. `Strength.Assess` proves it is empty exactly at score 0. |
| `Strength.Assess` | src/scripts/formValidation.js:137-167 | What the meter shows for a value: score, band and caption. The score is at most 4. The caption is empty exactly when the score is 0. It reads "Strong password" exactly when all four conditions hold. |
| `Strength.BlankExactlyAtZero` | src/scripts/formValidation.js:152-154 | An empty value scores 0, and the label is blank exactly when the score is 0. |
| `Strength.LabelBands` | src/scripts/formValidation.js:152-167 | Scores 1-2 give weak and exactly 3 gives medium. Strong means all four conditions hold. |
| `Strength.ScoreMonotone` | src/scripts/formValidation.js:144-148 | Appending characters never lowers the score. |
| `Strength.WeakExample` | src/scripts/formValidation.js:144-158 | `abcdefgh` scores 1, which is weak. |
| `Strength.MediumExample` | src/scripts/formValidation.js:144-162 | `Abcdefgh1` scores 3, which is medium. |
| `Strength.StrongExample` | src/scripts/formValidation.js:144-166 | `Abcdefgh1!` scores 4, which is strong. |
| `Strength.BlankExample` | src/scripts/formValidation.js:144-154 | `abc` scores 0 and shows nothing although it is not empty. The empty value shows nothing too. |
| `Forms.Cleared` | src/scripts/formValidation.js:47-50 | The start of `validateField`: both classes and both slots' visibility removed. `Forms.MarkedForgetsClasses` proves nothing earlier survives it but the error text. |
| `Forms.WithError` | src/scripts/formValidation.js:122-128 | `showError` on one field's state. Its effect after clearing is given by `Forms.MarkedShowsVerdict`. |
| `Forms.WithSuccess` | src/scripts/formValidation.js:130-135 | `showSuccess` on one field's state. Its effect after clearing is given by `Forms.MarkedShowsVerdict`. |
| `Forms.Marked` | src/scripts/formValidation.js:47-135 | The state `validateField` leaves for a verdict. `Forms.MarkedShowsVerdict`, `Forms.MarkedIdempotent` and `Forms.MarkedForgetsClasses` state what it means. |
| `Forms.Unmarked` | src/scripts/formValidation.js:190-192 | The completion step's class removal on a `.form__input` field. `Forms.Form.Complete` proves it is applied to exactly those fields. |
| `Forms.MarkedShowsVerdict` | src/scripts/formValidation.js:48-135 | After validation a field carries exactly one of the error and success classes, the one the verdict calls for. A slot is visible exactly when it exists and matches the verdict, and a shown error slot holds the rule's message. |
| `Forms.MarkedIdempotent` | src/scripts/formValidation.js:47-135 | Validating a field again with the same verdict leaves the same state. |
| `Forms.MarkedForgetsClasses` | src/scripts/formValidation.js:47-50 | The state after validation does not depend on the classes or the visibility before it. |
| `Forms.IndexOfId` | src/scripts/formValidation.js:94 | Returns the first field whose id is the given one, or the number of fields when there is none. |
| `Forms.MeterAndValidatorDisagreeOnPadding` | src/scripts/formValidation.js:77-148 | `Abcdef1 `, with a trailing space, is labelled strong by the meter, yet the validator rejects it as too short. |
| `Forms.Form.constructor` | src/scripts/formValidation.js:3-7 | A form starts with its initial values, every field neutral, the button idle and nothing scheduled. |
| `Forms.Form.Primary` | src/scripts/formValidation.js:94-95 | The raw value of the first field with id `password`, if there is one. Its lookup is `Forms.IndexOfId`. |
| `Forms.Form.ShowError` | src/scripts/formValidation.js:122-128 | Adds the error class to one field, plus the message and a visible error slot when the slot exists. No other field changes. |
| `Forms.Form.ShowSuccess` | src/scripts/formValidation.js:130-135 | Adds the success class to one field, plus a visible success slot when the slot exists. No other field changes. |
| `Forms.Form.ValidateField` | src/scripts/formValidation.js:41-120 | Returns true exactly when the field is accepted, and marks that field, and only it, with the verdict. |
| `Forms.Form.OnBlur` | src/scripts/formValidation.js:11 | Leaving a field validates it. |
| `Forms.Form.OnInput` | src/scripts/formValidation.js:12-20 | An edit stores the new value. The field is re-validated only if it showed an error. For the primary password field, the meter's score, band and caption, computed from the raw value, are returned when the page has a meter. |
| `Forms.Form.Submit` | src/scripts/formValidation.js:24-37 | Every field is validated and marked, with no early exit. Submission starts exactly when all fields pass and a button exists; the button then becomes loading and disabled. Otherwise the button and the schedule are untouched. |
| `Forms.Form.Request` | src/scripts/formValidation.js:24-37 | A submission the user asks for. While the button is disabled the browser dispatches no submit event, so nothing changes. Otherwise it behaves as `Forms.Form.Submit`: every field is marked, submission starts exactly when all fields pass and a button exists, a started request leaves the button loading and disabled with one more completion scheduled, and an unstarted one leaves button and schedule unchanged. Through this entry point with `Forms.Form.Complete`, at most one submission is in flight, and the button is loading exactly while it is (`Serial()`). |
| `Forms.Form.RequestTwice` | src/scripts/formValidation.js:24-37 | Two submissions asked for in a row: when the first starts, the second is refused, the button stays disabled and exactly one completion is scheduled. |
| `Forms.Form.SubmitForm` | src/scripts/formValidation.js:170-176 | The button becomes loading and disabled and one completion is scheduled. With no button nothing happens. |
| `Forms.Form.Complete` | src/scripts/formValidation.js:176-193 | The button is enabled and no longer loading, and one success notification is added. Every value returns to its initial value. Only `.form__input` fields lose both classes. Select fields and all feedback slots keep their state. Starting from `Serial()`, nothing is left scheduled and `Serial()` still holds. |

The class `Form` keeps its invariant `Valid()` through every method. Under it, no field ever carries both classes. The button is loading exactly when it is disabled, and only while a completion is scheduled. Without a button, nothing is ever scheduled.

## Left out

- Finding elements in the page is not modelled: the `.form` forms, their fields and button, each field's `.form__group` slots and the strength bar. The fields and the presence of a button and a meter become constructor parameters. Registering the event listeners is what the handler methods stand for.
- The element with id `password` is looked up among the form's own fields, as the first field with that id. A page whose password field sits in a different form is not modelled.
- Each field's error and success slots are modelled as its own. In the source, `closest('.form__group')` finds them, so two fields in one group would share one pair of slots. Validating one such field would then hide or overwrite the other's message. That sharing (aliasing) is not captured.
- Forms.Form.Submit: the handler itself may run while the button is disabled. The guard against a second submission lives in the browser, not in the handler. Called directly, `Submit` therefore allows several completions in flight. `Forms.Form.Request` models the guarded entry point and proves at most one is.
- Forms.Form.SubmitForm: without a `.form__button`, `submitForm` throws at its first access to the button (line 172). The model treats that as doing nothing: no state changes and nothing is scheduled. The uncaught exception itself is not modelled.
- `e.preventDefault()` is not modelled: page navigation is outside the model.
- The 1500 ms delay is not modelled as time. The timer callback is the method `Complete`, which may run only while a completion is scheduled.
- The notification is recorded as its text only. Its styling, its 3000 ms and 300 ms removal timers and the 'error' kind, which the code never uses, are not modelled.
- `FormData` and `console.log` are left out. The form data is collected only to be written to the console, which is output, and nothing reads it afterwards.
- The global `<style>` injection and the strength bar's width and colour strings are presentation only.
- String lengths are sequence lengths. JavaScript counts UTF-16 code units, so a character outside the Basic Multilingual Plane counts once here and twice in the source, for the name and password minimum lengths.
- The field kinds are text, email, tel, password and select. Any other input type behaves as text, which is how the validator treats it. An element found by id that is not a field is not modelled.
- `animations.js`, `navigation.js`, `main.js` and `vite.config.js` are not part of this model: they are scroll, hover and navigation effects, module start-up and build configuration.
