/** The form component's state and its four event handlers, each taken as
    one atomic, synchronous transition of `(inputs, errors, open)`. */
module Form {
  import opened Fields
  import opened Validation

  /** The reasons the snackbar gives when it asks to be closed. */
  datatype CloseReason = Clickaway | Timeout | EscapeKeyDown

  /** The untyped values that reach `handleClose`'s parameter: a string, an
      event object, or `null`. */
  datatype JsValue = Str(s: string) | EventObject | Null

  function ReasonName(why: CloseReason): string {
    match why
    case Clickaway => "clickaway"
    case Timeout => "timeout"
    case EscapeKeyDown => "escapeKeyDown"
  }

  /** The arguments of the snackbar's `onClose(event, reason)` call: the
      triggering event (`null` for the auto-hide timer) and the reason. */
  function OnCloseArguments(why: CloseReason): (args: (JsValue, JsValue))
    ensures args.1 == Str(ReasonName(why))
    ensures args.0 != Str(ReasonName(why))
  {
    (if why == Timeout then Null else EventObject, Str(ReasonName(why)))
  }

  /** The guard `reason === 'clickaway'`: strict equality with the string. */
  predicate IgnoredByGuard(reason: JsValue) {
    reason == Str("clickaway")
  }

  /** As wired, `onClose={handleClose}` binds the handler's one parameter to
      the call's first argument, the event: the guard never fires, and even
      a click-away closes the notice. */
  lemma AsWiredAlwaysCloses(why: CloseReason)
    ensures !IgnoredByGuard(OnCloseArguments(why).0)
  {
  }

  /** With the guard applied to the second argument, exactly the click-away
      is ignored. */
  lemma IntendedIgnoresOnlyClickaway(why: CloseReason)
    ensures IgnoredByGuard(OnCloseArguments(why).1) <==> why == Clickaway
  {
  }

  class UserForm {
    /** The current field values. */
    var inputs: Inputs
    /** The error messages on display. */
    var errors: Errors
    /** Whether the "submitted successfully" notice is showing. */
    var open: bool

    /** Every field has a value, and the error record has exactly the
        error fields as keys. */
    ghost predicate Valid()
      reads this
    {
      HasAllFields(inputs) && errors.Keys == ErrorFields
    }

    /** Mounting: the default inputs, the empty error record, the notice closed. */
    constructor ()
      ensures Valid()
      ensures inputs == InitialInput && errors == InitialError && !open
    {
      inputs := InitialInput;
      errors := InitialError;
      open := false;
      DefaultsCoverRegistry();
    }

    /** `changeHandler`: the event's value is stored under the event's name,
        and nothing else changes; the errors are not re-validated. */
    method ChangeHandler(name: string, value: string)
      requires Valid()
      modifies this
      ensures Valid()
      ensures inputs == old(inputs)[name := value]
      ensures errors == old(errors) && open == old(open)
    {
      inputs := inputs[name := value];
    }

    /** `handleClose`, as written: when its parameter is the string
        `'clickaway'` nothing changes; any other value closes the notice. */
    method HandleClose(reason: JsValue)
      requires Valid()
      modifies this
      ensures Valid()
      ensures inputs == old(inputs) && errors == old(errors)
      ensures open == (if IgnoredByGuard(reason) then old(open) else false)
    {
      if reason == Str("clickaway") {
        return;
      }
      open := false;
    }

    /** The snackbar closing for `why`, with the handler wired as intended:
        the guard sees the reason, so a click-away leaves the notice open
        and a timeout or the escape key closes it. */
    method SnackbarClose(why: CloseReason)
      requires Valid()
      modifies this
      ensures Valid()
      ensures inputs == old(inputs) && errors == old(errors)
      ensures why == Clickaway ==> open == old(open)
      ensures why != Clickaway ==> !open
    {
      HandleClose(OnCloseArguments(why).1);
    }

    /** `submitHandler`: validates every input into a copy of the empty
        error record, then either accepts (errors cleared, notice opened) or
        rejects (the computed errors shown, notice left as it was). The
        inputs are never changed. */
    method SubmitHandler(isFuture: IsFuture)
      requires Valid()
      modifies this
      ensures Valid()
      ensures inputs == old(inputs)
      ensures AllEmpty(ValidateAll(old(inputs), isFuture)) ==> errors == InitialError && open
      ensures !AllEmpty(ValidateAll(old(inputs), isFuture)) ==>
        errors == ValidateAll(old(inputs), isFuture) && open == old(open)
    {
      var newErrors := ComputeErrors(inputs, isFuture);
      var same := CompareObjects(InitialError, newErrors);
      EqualsInitialErrorIffAllEmpty(newErrors);
      if same {
        errors := InitialError;
        open := true;
      } else {
        errors := newErrors;
      }
    }

    /** `resetHandler`: the default inputs and the empty error record,
        whatever came before; the notice is left alone. The new state does
        not depend on the old inputs and errors, so a second reset changes
        nothing: the handler is idempotent. */
    method ResetHandler()
      modifies this
      ensures Valid()
      ensures inputs == InitialInput && errors == InitialError && open == old(open)
    {
      inputs := InitialInput;
      errors := InitialError;
      DefaultsCoverRegistry();
    }
  }
}
