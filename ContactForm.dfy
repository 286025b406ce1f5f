/** The simulated contact form: validation on submit, a "sending" button, and
    a timer that resets the form and restores the button. */
module ContactForm {
  import TextTrim

  const SendingLabel: string := "Sending..."
  const SendLabel: string := "Send"

  /** The values of the `name`, `email` and `message` controls. */
  datatype Fields = Fields(name: string, email: string, message: string)

  /** The submit button (`.btn.primary`): its `disabled` flag and text. */
  datatype Button = Button(disabled: bool, text: string)

  /** Everything the handlers change; `pending` counts timers scheduled and not
      yet fired. */
  datatype FormState = FormState(fields: Fields, button: Button, pending: nat)

  /** The submit handler's test that every field is non-empty once trimmed:
      it passes exactly when no field holds only white space (or nothing). */
  function Filled(f: Fields): (ok: bool)
    ensures ok <==>
            !TextTrim.Blank(f.name) && !TextTrim.Blank(f.email) && !TextTrim.Blank(f.message)
  {
    TextTrim.TrimEmptyIffBlank(f.name);
    TextTrim.TrimEmptyIffBlank(f.email);
    TextTrim.TrimEmptyIffBlank(f.message);
    TextTrim.Trim(f.name) != "" && TextTrim.Trim(f.email) != "" &&
    TextTrim.Trim(f.message) != ""
  }

  /** The state after a submit event. A submit never edits the fields; when
      it changes anything, it puts the button in its sending state and
      schedules exactly one timer. */
  function AfterSubmit(s: FormState): (r: FormState)
    ensures r.fields == s.fields
    ensures r.pending == s.pending || r.pending == s.pending + 1
    ensures r != s ==> r.button == Button(true, SendingLabel) && r.pending == s.pending + 1
  {
    if Filled(s.fields) then
      s.(button := Button(true, SendingLabel), pending := s.pending + 1)
    else
      s
  }

  /** The state after a scheduled timer fires: `form.reset()` puts back the
      default values, and the button is enabled and relabelled. */
  function AfterTimer(s: FormState, defaults: Fields): (r: FormState)
    requires s.pending > 0
    ensures r.fields == defaults
    ensures !r.button.disabled && r.button.text == SendLabel
    ensures r.pending + 1 == s.pending
  {
    FormState(defaults, Button(false, SendLabel), s.pending - 1)
  }

  /** A rejected submit leaves fields, button and timers as they were. */
  lemma RejectedSubmitChangesNothing(s: FormState)
    requires TextTrim.Blank(s.fields.name) || TextTrim.Blank(s.fields.email) ||
             TextTrim.Blank(s.fields.message)
    ensures AfterSubmit(s) == s
  {
  }

  /** An accepted submit keeps the fields, disables the button, labels it
      `Sending...` and schedules one timer. */
  lemma AcceptedSubmitSends(s: FormState)
    requires !TextTrim.Blank(s.fields.name) && !TextTrim.Blank(s.fields.email) &&
             !TextTrim.Blank(s.fields.message)
    ensures AfterSubmit(s) == FormState(s.fields, Button(true, SendingLabel), s.pending + 1)
  {
  }

  /** Submit, then the timer: the form is reset, the button is `Send` and
      enabled again, and no timer is left over from this submit. */
  lemma SendThenComplete(s: FormState, defaults: Fields)
    requires !TextTrim.Blank(s.fields.name) && !TextTrim.Blank(s.fields.email) &&
             !TextTrim.Blank(s.fields.message)
    ensures var t := AfterSubmit(s);
            t.pending > 0 &&
            AfterTimer(t, defaults) == FormState(defaults, Button(false, SendLabel), s.pending)
  {
    AcceptedSubmitSends(s);
  }

  /** The form element on the page. */
  class Form {
    var name: string
    var email: string
    var message: string
    const defaults: Fields  // the values `reset()` restores
    var disabled: bool
    var text: string
    var pending: nat

    ghost function State(): FormState
      reads this
    {
      FormState(Fields(name, email, message), Button(disabled, text), pending)
    }

    /** The form as loaded: fields at their defaults, button as in the markup. */
    constructor (defaults: Fields, button: Button)
      ensures this.defaults == defaults
      ensures State() == FormState(defaults, button, 0)
    {
      this.defaults := defaults;
      name, email, message := defaults.name, defaults.email, defaults.message;
      disabled, text := button.disabled, button.text;
      pending := 0;
    }

    /** The submit handler; `accepted` is false when the "complete all fields"
        notice is shown instead. */
    method Submit() returns (accepted: bool)
      modifies this
      ensures accepted == Filled(old(State()).fields)
      ensures State() == AfterSubmit(old(State()))
    {
      var n := TextTrim.Trim(name);
      var e := TextTrim.Trim(email);
      var m := TextTrim.Trim(message);
      if n == "" || e == "" || m == "" {
        return false;
      }
      disabled := true;
      text := SendingLabel;
      pending := pending + 1;
      accepted := true;
    }

    /** The callback of one scheduled timer. */
    method TimerFires()
      requires pending > 0
      modifies this
      ensures State() == AfterTimer(old(State()), defaults)
    {
      name, email, message := defaults.name, defaults.email, defaults.message;
      disabled := false;
      text := SendLabel;
      pending := pending - 1;
    }
  }
}
