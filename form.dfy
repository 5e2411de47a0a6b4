/**
 * One `.form` element: its fields with their values and visual state, its
 * submit button, and the handlers `initFormValidation` attaches: blur and
 * input on a field, submit on the form, and the delayed completion scheduled
 * by `submitForm`.
 */
module Forms {
  import opened Text
  import opened Validation
  import Strength

  /** A field of the form as the markup fixes it: what the validator reads,
      whether the element carries the class `form__input` (the others were
      collected for `form__select`), whether its `.form__group` holds an error
      slot and a success slot, and the value `form.reset()` restores. */
  datatype Control = Control(field: Field, inputClass: bool, errorSlot: bool, successSlot: bool, initial: string)

  /** The field's two classes `form__input--error` and `form__input--success`,
      whether its error and success slots are visible, and the error slot's text. */
  datatype FieldState = FieldState(errorClass: bool, successClass: bool,
                                   errorShown: bool, successShown: bool, errorText: string)

  const Pristine := FieldState(false, false, false, false, "")

  const SubmittedNotice := "Form submitted successfully!"

  /** No field carries both classes at once. */
  predicate Exclusive(s: FieldState) { !(s.errorClass && s.successClass) }

  /** The start of `validateField`: both classes and both slots' visibility removed. */
  function Cleared(s: FieldState): FieldState {
    s.(errorClass := false, successClass := false, errorShown := false, successShown := false)
  }

  /** `showError`: the error class, and the message in a visible error slot if there is one. */
  function WithError(s: FieldState, c: Control, message: string): FieldState {
    if c.errorSlot then s.(errorClass := true, errorShown := true, errorText := message)
    else s.(errorClass := true)
  }

  /** `showSuccess`: the success class, and a visible success slot if there is one. */
  function WithSuccess(s: FieldState, c: Control): FieldState {
    if c.successSlot then s.(successClass := true, successShown := true)
    else s.(successClass := true)
  }

  /** The state `validateField` leaves behind for a verdict. */
  function Marked(s: FieldState, c: Control, v: Verdict): FieldState {
    match v
    case Accept => WithSuccess(Cleared(s), c)
    case Reject(rule) => WithError(Cleared(s), c, MessageOf(rule))
  }

  /** The completion step's `classList.remove` on a `.form__input` field. */
  function Unmarked(s: FieldState): FieldState {
    s.(errorClass := false, successClass := false)
  }

  /** After validation the field carries exactly one of the two classes, the
      one the verdict calls for; a slot is visible exactly when it exists and
      matches the verdict; a shown error slot holds the message. */
  lemma MarkedShowsVerdict(s: FieldState, c: Control, v: Verdict)
    ensures var m := Marked(s, c, v);
            m.errorClass != m.successClass && (m.errorClass <==> v.Reject?) &&
            (m.errorShown <==> v.Reject? && c.errorSlot) &&
            (m.successShown <==> v.Accept? && c.successSlot) &&
            (m.errorShown ==> m.errorText == MessageOf(v.rule))
  {
  }

  /** Validating again with the same verdict changes nothing. */
  lemma MarkedIdempotent(s: FieldState, c: Control, v: Verdict)
    ensures Marked(Marked(s, c, v), c, v) == Marked(s, c, v)
  {
  }

  /** Validation never toggles on what was shown before: the new state depends
      on the old one only through the error slot's text, which is kept when no
      message is written. */
  lemma MarkedForgetsClasses(s: FieldState, t: FieldState, c: Control, v: Verdict)
    requires s.errorText == t.errorText
    ensures Marked(s, c, v) == Marked(t, c, v)
  {
  }

  /** Index of the first control whose id is `id`, or `|cs|` when there is none
      (`document.getElementById` returns the first element in document order). */
  function IndexOfId(cs: seq<Control>, id: string): (k: nat)
    ensures k <= |cs|
    ensures k < |cs| ==> cs[k].field.id == id
    ensures forall j :: 0 <= j < k ==> cs[j].field.id != id
  {
    if cs == [] || cs[0].field.id == id then 0 else 1 + IndexOfId(cs[1..], id)
  }

  class Form {
    const controls: seq<Control>
    /** Whether the form holds a `.form__button`. */
    const hasButton: bool
    /** Whether the page holds the strength bar and its caption. */
    const hasMeter: bool
    const values: array<string>
    const states: array<FieldState>
    /** The button's class `form__button--loading` and its `disabled` property. */
    var loading: bool
    var disabled: bool
    /** Completion callbacks scheduled and not yet run. */
    var pending: nat
    /** Notifications shown, oldest first. */
    var notices: seq<string>

    /** Arrays sized to the controls; no field in both states; the button is
        loading exactly when it is disabled, and only while a completion is
        scheduled; without a button nothing is ever scheduled. */
    ghost predicate Valid()
      reads this, states
    {
      values.Length == |controls| && states.Length == |controls| &&
      (forall i :: 0 <= i < states.Length ==> Exclusive(states[i])) &&
      loading == disabled && (loading ==> pending > 0) &&
      (!hasButton ==> pending == 0)
    }

    /** At most one submission in flight, and the button is loading exactly
        while it is: what a form driven through `Request` keeps. */
    predicate Serial()
      reads this
    {
      pending <= 1 && (loading <==> pending == 1)
    }

    constructor (controls: seq<Control>, hasButton: bool, hasMeter: bool)
      ensures Valid() && Serial()
      ensures this.controls == controls && this.hasButton == hasButton && this.hasMeter == hasMeter
      ensures fresh(values) && fresh(states)
      ensures forall i :: 0 <= i < |controls| ==> values[i] == controls[i].initial && states[i] == Pristine
      ensures !loading && !disabled && pending == 0 && notices == []
    {
      this.controls := controls;
      this.hasButton := hasButton;
      this.hasMeter := hasMeter;
      values := new string[|controls|](i => if 0 <= i < |controls| then controls[i].initial else "");
      states := new FieldState[|controls|](_ => Pristine);
      loading, disabled, pending, notices := false, false, 0, [];
    }

    /** The raw value of the field `getElementById('password')` finds, if any. */
    function Primary(): Option<string>
      reads this, values
      requires values.Length == |controls|
    {
      var k := IndexOfId(controls, PrimaryId);
      if k < |controls| then Some(values[k]) else None
    }

    /** What `validateField` decides for field `i` in the current values. */
    function VerdictAt(i: nat): Verdict
      reads this, values
      requires values.Length == |controls| && i < |controls|
    {
      Validate(controls[i].field, values[i], Primary())
    }

    ghost predicate AllPass()
      reads this, values
      requires values.Length == |controls|
    {
      forall i :: 0 <= i < |controls| ==> VerdictAt(i).Accept?
    }

    /** `showError(field, errorElement, message)`, called on a field whose
        success class has just been removed. */
    method ShowError(i: nat, message: string)
      requires Valid() && i < states.Length && !states[i].successClass
      modifies states
      ensures Valid()
      ensures states[..] == old(states[..])[i := WithError(old(states[i]), controls[i], message)]
    {
      states[i] := WithError(states[i], controls[i], message);
    }

    /** `showSuccess(field, successElement)`, called on a field whose error
        class has just been removed. */
    method ShowSuccess(i: nat)
      requires Valid() && i < states.Length && !states[i].errorClass
      modifies states
      ensures Valid()
      ensures states[..] == old(states[..])[i := WithSuccess(old(states[i]), controls[i])]
    {
      states[i] := WithSuccess(states[i], controls[i]);
    }

    /** `validateField(field)`: returns the verdict for field `i` and marks
        that field, and only that one, accordingly. */
    method ValidateField(i: nat) returns (ok: bool)
      requires Valid() && i < |controls|
      modifies states
      ensures Valid()
      ensures ok == VerdictAt(i).Accept?
      ensures states[..] == old(states[..])[i := Marked(old(states[i]), controls[i], VerdictAt(i))]
    {
      states[i] := Cleared(states[i]);
      var verdict := Validate(controls[i].field, values[i], Primary());
      match verdict {
        case Accept =>
          ShowSuccess(i);
          ok := true;
        case Reject(rule) =>
          ShowError(i, MessageOf(rule));
          ok := false;
      }
    }

    /** The blur listener. */
    method OnBlur(i: nat)
      requires Valid() && i < |controls|
      modifies states
      ensures Valid()
      ensures states[..] == old(states[..])[i := Marked(old(states[i]), controls[i], VerdictAt(i))]
    {
      var _ := ValidateField(i);
    }

    /** The input listener, run once the field's value has become `value`: a
        field that shows an error is validated again, and when it is the
        primary password field the strength meter (if present) is recomputed
        from the raw value. */
    method OnInput(i: nat, value: string) returns (meter: Option<Strength.Assessment>)
      requires Valid() && i < |controls|
      modifies values, states
      ensures Valid()
      ensures values[..] == old(values[..])[i := value]
      ensures old(states[i]).errorClass ==>
                states[..] == old(states[..])[i := Marked(old(states[i]), controls[i], VerdictAt(i))]
      ensures !old(states[i]).errorClass ==> states[..] == old(states[..])
      ensures meter == if hasMeter && IsPrimary(controls[i].field) then Some(Strength.Assess(value)) else None
    {
      values[i] := value;
      if states[i].errorClass {
        var _ := ValidateField(i);
      }
      if IsPrimary(controls[i].field) && hasMeter {
        meter := Some(Strength.Assess(value));
      } else {
        meter := None;
      }
    }

    /** The submit listener: every field is validated, with no early exit,
        and the submission starts only when all of them pass. */
    method Submit() returns (started: bool)
      requires Valid()
      modifies states, this`loading, this`disabled, this`pending
      ensures Valid()
      ensures forall i :: 0 <= i < states.Length ==> states[i] == Marked(old(states[i]), controls[i], VerdictAt(i))
      ensures started == (AllPass() && hasButton)
      ensures started ==> loading && disabled && pending == old(pending) + 1
      ensures !started ==> loading == old(loading) && disabled == old(disabled) && pending == old(pending)
    {
      var isValid := true;
      var i := 0;
      while i < states.Length
        invariant 0 <= i <= states.Length
        invariant Valid() && loading == old(loading) && disabled == old(disabled) && pending == old(pending)
        invariant forall j :: 0 <= j < i ==> states[j] == Marked(old(states[j]), controls[j], VerdictAt(j))
        invariant forall j :: i <= j < states.Length ==> states[j] == old(states[j])
        invariant isValid == forall j :: 0 <= j < i ==> VerdictAt(j).Accept?
      {
        var ok := ValidateField(i);
        if !ok {
          isValid := false;
        }
        i := i + 1;
      }
      started := false;
      if isValid {
        started := SubmitForm();
      }
    }

    /** A submission asked for by the user (a click on the button, or Enter in
        a field). The browser dispatches no submit event while the form's submit
        button is disabled, so the listener runs only when it is enabled. Forms
        driven through this entry point never have two submissions in flight. */
    method Request() returns (started: bool)
      requires Valid() && Serial()
      modifies states, this`loading, this`disabled, this`pending
      ensures Valid() && Serial()
      ensures old(disabled) ==> !started && states[..] == old(states[..]) &&
                                loading && disabled && pending == old(pending)
      ensures !old(disabled) ==> started == (AllPass() && hasButton) &&
                                 forall i :: 0 <= i < states.Length ==>
                                   states[i] == Marked(old(states[i]), controls[i], VerdictAt(i))
      ensures !old(disabled) && started ==> loading && disabled && pending == old(pending) + 1
      ensures !old(disabled) && !started ==>
                loading == old(loading) && disabled == old(disabled) && pending == old(pending)
    {
      if disabled {
        started := false;
      } else {
        started := Submit();
      }
    }

    /** Two submissions asked for in a row, with no completion in between:
        once the first has started, the second is refused. */
    method RequestTwice() returns (first: bool, second: bool)
      requires Valid() && Serial()
      modifies states, this`loading, this`disabled, this`pending
      ensures Valid() && Serial()
      ensures first ==> !second && disabled && pending == 1
    {
      first := Request();
      second := Request();
    }

    /** `submitForm` up to its timer: the button becomes loading and disabled
        and the completion is scheduled. With no button the first access to it
        throws, and nothing happens. */
    method SubmitForm() returns (scheduled: bool)
      requires Valid()
      modifies this`loading, this`disabled, this`pending
      ensures Valid()
      ensures scheduled == hasButton
      ensures scheduled ==> loading && disabled && pending == old(pending) + 1
      ensures !scheduled ==> loading == old(loading) && disabled == old(disabled) && pending == old(pending)
    {
      scheduled := hasButton;
      if hasButton {
        loading, disabled := true, true;
        pending := pending + 1;
      }
    }

    /** The timer callback of `submitForm`: the button is enabled again, the
        success notification is shown, every value returns to its initial one,
        and the `.form__input` fields, and only they, lose both classes. The
        slots keep their visibility and the select fields their classes. */
    method Complete()
      requires Valid() && pending > 0
      modifies this`loading, this`disabled, this`pending, this`notices, values, states
      ensures Valid()
      ensures old(Serial()) ==> Serial() && pending == 0
      ensures !loading && !disabled && pending == old(pending) - 1
      ensures notices == old(notices) + [SubmittedNotice]
      ensures forall i :: 0 <= i < values.Length ==> values[i] == controls[i].initial
      ensures forall i :: 0 <= i < states.Length ==>
                states[i] == if controls[i].inputClass then Unmarked(old(states[i])) else old(states[i])
    {
      loading, disabled := false, false;
      notices := notices + [SubmittedNotice];
      forall i | 0 <= i < values.Length {
        values[i] := controls[i].initial;
      }
      var i := 0;
      while i < states.Length
        invariant 0 <= i <= states.Length
        invariant !loading && !disabled && pending == old(pending) && notices == old(notices) + [SubmittedNotice]
        invariant forall j :: 0 <= j < values.Length ==> values[j] == controls[j].initial
        invariant forall j :: 0 <= j < i ==>
                    states[j] == if controls[j].inputClass then Unmarked(old(states[j])) else old(states[j])
        invariant forall j :: i <= j < states.Length ==> states[j] == old(states[j])
      {
        if controls[i].inputClass {
          states[i] := Unmarked(states[i]);
        }
        i := i + 1;
      }
      pending := pending - 1;
    }
  }

  /** A password padded with white space can earn the strong label from the
      meter, which reads the raw value, while the validator, which reads the
      trimmed value, finds it too short. */
  lemma MeterAndValidatorDisagreeOnPadding()
    ensures Strength.LabelOf("Abcdef1 ") == Strength.Strong
    ensures Validate(Field(Password, PrimaryId, true), "Abcdef1 ", None) == Reject(PasswordLengthRule)
  {
    var v := "Abcdef1 ";
    assert IsAsciiUpper(v[0]) && IsAsciiLower(v[1]) && IsAsciiDigit(v[6]) && IsSymbol(v[7]);
    var t := "Abcdef1";
    TrimFixed(t);
    assert Trim(v) == t by {
      assert IsWhite(v[7]);
      var r := Trim(v);
      var i :| WhiteAround(v, r, i);
      assert !IsWhite(v[0]) && !IsWhite(v[6]);
    }
  }
}
