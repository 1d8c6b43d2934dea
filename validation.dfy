/** The form's validation engine: the per-field rule table behind
    `validateInput`, the error record a submit computes from it, and
    `compareObjects`, which decides whether that record is the empty one. */
module Validation {
  import opened Fields
  import opened Patterns

  /** The date-of-birth rule's comparison `new Date(value) > new Date()`,
      which depends on date parsing and the wall clock, supplied by the caller. */
  type IsFuture = string -> bool

  const DobFuture := "Date of Birth cannot be in the future."
  const PhnoFormat := "Phone number must be 10 digits only."
  const EmailFormat := "Email address is invalid."

  /** The message a field shows when it is required and missing. */
  function RequiredMessage(f: Field): (msg: string)
    ensures msg == "" <==> f == MName
  {
    match f
    case FName => "First name is required."
    case MName => ""
    case LName => "Last name is required."
    case Gender => "Gender is required."
    case Dob => "Date of Birth is required."
    case Phno => "Phone number is required."
    case Email => "Email is required."
    case House => "House/Flat No.and Name is required."
    case City => "City is required."
    case States => "State is required."
  }

  /** The message a field shows when its non-empty value has the wrong form;
      empty for fields that only have a "required" rule. */
  function FormatMessage(f: Field): string {
    match f
    case Dob => DobFuture
    case Phno => PhnoFormat
    case Email => EmailFormat
    case _ => ""
  }

  /** The rule table: the message for field `f` holding `value`, `""` when
      the value is valid. The emptiness test `!value` comes first; the state
      is tested against its sentinel instead; the middle name has no rule. */
  function FieldError(f: Field, value: string, isFuture: IsFuture): string {
    match f
    case MName => ""
    case States => if value == "NA" then RequiredMessage(States) else ""
    case Dob =>
      if value == "" then RequiredMessage(Dob)
      else if isFuture(value) then DobFuture
      else ""
    case Phno =>
      if value == "" then RequiredMessage(Phno)
      else if !PhoneMatches(value) then PhnoFormat
      else ""
    case Email =>
      if value == "" then RequiredMessage(Email)
      else if !EmailTest(value) then EmailFormat
      else ""
    case _ => if value == "" then RequiredMessage(f) else ""
  }

  /** The value stored under `name`. A missing property reads as `undefined`
      in the source, which every rule treats as it treats `""`: it is falsy,
      and it is not equal to the state's sentinel. */
  function ValueOf(inputs: Inputs, name: string): string {
    if name in inputs then inputs[name] else ""
  }

  /** `validateInput(name)` on a snapshot of the inputs: a name outside the
      rule table yields `""`, and a non-empty message always belongs to one
      of the fields the error record has an entry for, and is either that
      field's "required" message or its format message. */
  function ValidateInput(name: string, inputs: Inputs, isFuture: IsFuture): (msg: string)
    ensures FieldNamed(name).None? ==> msg == ""
    ensures msg != "" ==> FieldNamed(name).Some? && FieldNamed(name).value in ErrorFields
    ensures msg != "" ==> msg == RequiredMessage(FieldNamed(name).value) || msg == FormatMessage(FieldNamed(name).value)
  {
    match FieldNamed(name)
    case None => ""
    case Some(f) => FieldError(f, ValueOf(inputs, name), isFuture)
  }

  /** The error record a submit builds: an entry for every field of the error
      record, holding that field's `validateInput` message. */
  function ValidateAll(inputs: Inputs, isFuture: IsFuture): Errors {
    map f | f in ErrorFields :: FieldError(f, ValueOf(inputs, Name(f)), isFuture)
  }

  /** Every entry of the error record is the empty message. */
  predicate AllEmpty(errors: Errors) {
    forall f :: f in errors ==> errors[f] == ""
  }

  /** `compareObjects(obj1, obj2)`: first every key of `obj2` must be a key
      of `obj1`, then every key of `obj1` must carry the same value in `obj2`
      (a key missing from `obj2` reads as `undefined` there, which equals no
      string). The keys are visited in an arbitrary order, so the answer
      holds whatever order the records list their keys in: the two records
      are equal as maps. */
  method CompareObjects(obj1: Errors, obj2: Errors) returns (same: bool)
    ensures same <==> obj1 == obj2
  {
    var pending := obj2.Keys;
    while pending != {}
      invariant pending <= obj2.Keys
      invariant forall k :: k in obj2 && k !in pending ==> k in obj1
      decreases pending
    {
      var key :| key in pending;
      if key !in obj1 {
        return false;
      }
      pending := pending - {key};
    }
    pending := obj1.Keys;
    while pending != {}
      invariant pending <= obj1.Keys
      invariant forall k :: k in obj1 && k !in pending ==> k in obj2 && obj2[k] == obj1[k]
      decreases pending
    {
      var key :| key in pending;
      if key !in obj2 || obj1[key] != obj2[key] {
        return false;
      }
      pending := pending - {key};
    }
    assert obj1.Keys == obj2.Keys;
    return true;
  }

  /** The partial record while the loop of `submitHandler` runs: the keys
      still `pending` hold their default `""`, every other field its
      `validateInput` message. */
  ghost predicate PartialRecord(inputs: Inputs, isFuture: IsFuture, pending: set<string>, errors: Errors) {
    errors.Keys == ErrorFields
    && forall f :: f in ErrorFields ==>
         errors[f] == if Name(f) in pending then "" else ValidateAll(inputs, isFuture)[f]
  }

  /** Once no key is pending, the partial record is the complete one. */
  lemma PartialRecordComplete(inputs: Inputs, isFuture: IsFuture, errors: Errors)
    requires PartialRecord(inputs, isFuture, {}, errors)
    ensures errors == ValidateAll(inputs, isFuture)
  {
  }

  /** One iteration of that loop: validating `key` and writing a non-empty
      message under it moves `key` out of the pending keys. */
  lemma RecordStep(inputs: Inputs, isFuture: IsFuture, pending: set<string>, key: string, before: Errors, after: Errors)
    requires key in pending
    requires PartialRecord(inputs, isFuture, pending, before)
    requires ValidateInput(key, inputs, isFuture) == "" ==> after == before
    requires ValidateInput(key, inputs, isFuture) != "" ==>
      after == before[FieldNamed(key).value := ValidateInput(key, inputs, isFuture)]
    ensures PartialRecord(inputs, isFuture, pending - {key}, after)
  {
    forall f | f in ErrorFields
      ensures after[f] == if Name(f) in pending - {key} then "" else ValidateAll(inputs, isFuture)[f]
    {
      if Name(f) == key {
        NameRoundTrip(f);
        ValidateAllAt(inputs, isFuture, f);
      } else {
        assert Name(f) in pending - {key} <==> Name(f) in pending;
      }
    }
  }

  /** The loop of `submitHandler`: starting from a copy of the empty error
      record, every input key is validated, in whatever order, and a
      non-empty message is written under that key. The result is the record
      holding every field's `validateInput` message. */
  method ComputeErrors(inputs: Inputs, isFuture: IsFuture) returns (newErrors: Errors)
    requires HasAllFields(inputs)
    ensures newErrors == ValidateAll(inputs, isFuture)
  {
    DefaultsCoverRegistry();
    newErrors := InitialError;
    var pending := inputs.Keys;
    while pending != {}
      invariant pending <= inputs.Keys
      invariant PartialRecord(inputs, isFuture, pending, newErrors)
      decreases pending
    {
      var key :| key in pending;
      var error := ValidateInput(key, inputs, isFuture);
      ghost var before := newErrors;
      if error != "" {
        newErrors := newErrors[FieldNamed(key).value := error];
      }
      RecordStep(inputs, isFuture, pending, key, before, newErrors);
      pending := pending - {key};
    }
    PartialRecordComplete(inputs, isFuture, newErrors);
  }

  /** Against the empty error record, `compareObjects` is the test "every
      entry is empty" for any record with the error record's keys. */
  lemma EqualsInitialErrorIffAllEmpty(errors: Errors)
    requires errors.Keys == ErrorFields
    ensures errors == InitialError <==> AllEmpty(errors)
  {
    DefaultsCoverRegistry();
    if AllEmpty(errors) {
      assert forall f :: f in errors ==> errors[f] == InitialError[f];
    }
  }

  /** The computed record has exactly the error record's keys, and it is
      empty exactly when every field's rule accepts its value. */
  lemma ValidateAllShape(inputs: Inputs, isFuture: IsFuture)
    ensures ValidateAll(inputs, isFuture).Keys == ErrorFields
    ensures AllEmpty(ValidateAll(inputs, isFuture))
            <==> forall f :: f in ErrorFields ==> ValidateInput(Name(f), inputs, isFuture) == ""
  {
    forall f | f in ErrorFields
      ensures ValidateAll(inputs, isFuture)[f] == ValidateInput(Name(f), inputs, isFuture)
    {
      ValidateAllAt(inputs, isFuture, f);
    }
  }

  // ---- The rules of `validateInput`, field by field ----

  /** For the fields with a format check, an empty value yields the "required"
      message and never the format message: the format check runs only on a
      non-empty value. */
  lemma RequiredBeforeFormat(f: Field, inputs: Inputs, isFuture: IsFuture)
    requires f == Dob || f == Phno || f == Email
    requires ValueOf(inputs, Name(f)) == ""
    ensures ValidateInput(Name(f), inputs, isFuture) == RequiredMessage(f)
    ensures ValidateInput(Name(f), inputs, isFuture) != FormatMessage(f)
  {
    NameRoundTrip(f);
  }

  /** The fields with only a "required" rule accept exactly the non-empty
      values and otherwise show their "required" message. */
  lemma RequiredRule(f: Field, inputs: Inputs, isFuture: IsFuture)
    requires f in {FName, LName, Gender, House, City}
    ensures ValidateInput(Name(f), inputs, isFuture) == "" <==> ValueOf(inputs, Name(f)) != ""
    ensures ValidateInput(Name(f), inputs, isFuture) != "" ==> ValidateInput(Name(f), inputs, isFuture) == RequiredMessage(f)
  {
    NameRoundTrip(f);
  }

  /** A non-empty date of birth is accepted exactly when it is not in the
      future, and otherwise shows the future-date message. */
  lemma DobRule(inputs: Inputs, isFuture: IsFuture)
    requires ValueOf(inputs, "dob") != ""
    ensures ValidateInput("dob", inputs, isFuture) == "" <==> !isFuture(ValueOf(inputs, "dob"))
    ensures ValidateInput("dob", inputs, isFuture) != "" ==> ValidateInput("dob", inputs, isFuture) == DobFuture
  {
  }

  /** A non-empty phone number is accepted exactly when it is ten decimal
      digits, and otherwise shows the ten-digit message. */
  lemma PhoneRule(inputs: Inputs, isFuture: IsFuture)
    requires ValueOf(inputs, "phno") != ""
    ensures ValidateInput("phno", inputs, isFuture) == ""
            <==> |ValueOf(inputs, "phno")| == 10 && forall i :: 0 <= i < 10 ==> '0' <= ValueOf(inputs, "phno")[i] <= '9'
    ensures ValidateInput("phno", inputs, isFuture) != "" ==> ValidateInput("phno", inputs, isFuture) == PhnoFormat
  {
  }

  /** A non-empty email address is accepted exactly when some substring of it
      matches `\S+@\S+\.\S+`, and otherwise shows the invalid-address message. */
  lemma EmailRule(inputs: Inputs, isFuture: IsFuture)
    requires ValueOf(inputs, "email") != ""
    ensures ValidateInput("email", inputs, isFuture) == "" <==> EmailRegexMatches(ValueOf(inputs, "email"))
    ensures ValidateInput("email", inputs, isFuture) != "" ==> ValidateInput("email", inputs, isFuture) == EmailFormat
  {
    EmailTestIsRegex(ValueOf(inputs, "email"));
  }

  /** The state is in error exactly when it holds the sentinel `"NA"`; in
      particular the empty string is accepted. */
  lemma StatesRule(inputs: Inputs, isFuture: IsFuture)
    ensures ValidateInput("states", inputs, isFuture) != "" <==> ValueOf(inputs, "states") == "NA"
    ensures ValidateInput("states", inputs, isFuture) != "" ==> ValidateInput("states", inputs, isFuture) == RequiredMessage(States)
    ensures ValueOf(inputs, "states") == "" ==> ValidateInput("states", inputs, isFuture) == ""
  {
  }

  /** The middle name, and every name the rule table does not list, always validate. */
  lemma UnvalidatedNames(name: string, inputs: Inputs, isFuture: IsFuture)
    requires name == "mname" || FieldNamed(name).None?
    ensures ValidateInput(name, inputs, isFuture) == ""
  {
  }

  // ---- Whole-record outcomes and examples ----

  /** The entry a submit computes for a field is that field's rule applied
      to its value. */
  lemma ValidateAllAt(inputs: Inputs, isFuture: IsFuture, f: Field)
    requires f in ErrorFields
    ensures ValidateAll(inputs, isFuture)[f] == ValidateInput(Name(f), inputs, isFuture)
    ensures ValidateAll(inputs, isFuture)[f] == FieldError(f, ValueOf(inputs, Name(f)), isFuture)
  {
    NameRoundTrip(f);
  }

  /** An empty value puts the field's "required" message in the computed
      record, for every field but the state. */
  lemma EmptyValueEntry(inputs: Inputs, isFuture: IsFuture, f: Field)
    requires f in ErrorFields && f != States
    requires ValueOf(inputs, Name(f)) == ""
    ensures ValidateAll(inputs, isFuture)[f] == RequiredMessage(f)
  {
    ValidateAllAt(inputs, isFuture, f);
  }

  /** Every field of the error record has a non-empty "required" message. */
  lemma RequiredMessagesNonEmpty()
    ensures forall f :: f in ErrorFields ==> RequiredMessage(f) != ""
  {
    forall f | f in ErrorFields ensures RequiredMessage(f) != "" {
      var msg := RequiredMessage(f);
    }
  }

  /** One entry of the record computed from the defaults. */
  lemma DefaultInputEntry(isFuture: IsFuture, f: Field)
    requires f in ErrorFields
    ensures ValidateAll(InitialInput, isFuture)[f] == RequiredMessage(f)
  {
    DefaultsCoverRegistry();
    if f == States {
      ValidateAllAt(InitialInput, isFuture, f);
    } else {
      EmptyValueEntry(InitialInput, isFuture, f);
    }
  }

  /** The inputs the form mounts with fail validation on every entry of the
      error record with that field's "required" message, the state included,
      since it starts on its sentinel. */
  lemma DefaultInputsFail(isFuture: IsFuture)
    ensures ValidateAll(InitialInput, isFuture).Keys == ErrorFields
    ensures forall f :: f in ErrorFields ==>
      ValidateAll(InitialInput, isFuture)[f] == RequiredMessage(f) != ""
    ensures !AllEmpty(ValidateAll(InitialInput, isFuture))
  {
    forall f | f in ErrorFields
      ensures ValidateAll(InitialInput, isFuture)[f] == RequiredMessage(f)
    {
      DefaultInputEntry(isFuture, f);
    }
    RequiredMessagesNonEmpty();
  }

  /** With every one of the ten values empty (the state too), eight entries
      fail with their "required" message: the empty state is not the
      sentinel and is accepted. */
  lemma BlankInputsFail(inputs: Inputs, isFuture: IsFuture)
    requires forall f: Field :: ValueOf(inputs, Name(f)) == ""
    ensures ValidateAll(inputs, isFuture)[States] == ""
    ensures forall f :: f in ErrorFields && f != States ==>
      ValidateAll(inputs, isFuture)[f] == RequiredMessage(f) != ""
  {
    ValidateAllAt(inputs, isFuture, States);
    forall f | f in ErrorFields && f != States
      ensures ValidateAll(inputs, isFuture)[f] == RequiredMessage(f)
    {
      EmptyValueEntry(inputs, isFuture, f);
    }
    RequiredMessagesNonEmpty();
  }

  /** What each rule accepts, stated with the regular expressions' own
      meaning: the reference against which the rule table is checked. */
  ghost predicate Accepts(f: Field, value: string, isFuture: IsFuture) {
    match f
    case MName => true
    case States => value != "NA"
    case Dob => value != "" && !isFuture(value)
    case Phno => PhoneMatches(value)
    case Email => EmailRegexMatches(value)
    case _ => value != ""
  }

  /** A field's rule yields the empty message exactly when it accepts the value. */
  lemma FieldErrorAccepts(f: Field, value: string, isFuture: IsFuture)
    ensures FieldError(f, value, isFuture) == "" <==> Accepts(f, value, isFuture)
  {
    if f == Email {
      EmailTestIsRegex(value);
    }
  }

  /** A submit succeeds exactly when every field of the error record accepts
      its value: a form filled in completely and correctly passes, and any
      single failing field makes it fail. */
  lemma AllValidIff(inputs: Inputs, isFuture: IsFuture)
    ensures AllEmpty(ValidateAll(inputs, isFuture))
            <==> forall f :: f in ErrorFields ==> Accepts(f, ValueOf(inputs, Name(f)), isFuture)
  {
    forall f | f in ErrorFields
      ensures ValidateAll(inputs, isFuture)[f] == "" <==> Accepts(f, ValueOf(inputs, Name(f)), isFuture)
    {
      ValidateAllAt(inputs, isFuture, f);
      FieldErrorAccepts(f, ValueOf(inputs, Name(f)), isFuture);
    }
  }

  /** Phone examples: ten digits pass, five or eleven digits
      show the format message, and the empty value the "required" message. */
  lemma PhoneExamples(isFuture: IsFuture)
    ensures FieldError(Phno, "1234567890", isFuture) == ""
    ensures FieldError(Phno, "12345", isFuture) == PhnoFormat
    ensures FieldError(Phno, "12345678901", isFuture) == PhnoFormat
    ensures FieldError(Phno, "", isFuture) == "Phone number is required."
  {
  }

  /** Email examples, one of them showing that text around a
      matching part is allowed. */
  lemma EmailExamples(isFuture: IsFuture)
    ensures FieldError(Email, "a@b.com", isFuture) == ""
    ensures FieldError(Email, "abc", isFuture) == EmailFormat
    ensures FieldError(Email, "", isFuture) == "Email is required."
    ensures FieldError(Email, "to: a@b.c !", isFuture) == ""
  {
    assert EmailCore("a@b.com", 1, 3);
    assert EmailCore("to: a@b.c !", 5, 7);
  }
}
