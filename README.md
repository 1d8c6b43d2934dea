# UserForm validation core, modelled in Dafny

This project models the validation logic of the `UserForm` component
(`src/Components/UserForm.tsx`): a registration form with ten fields (first,
middle and last name, gender, date of birth, phone number, email address,
house, city and state). It models:

- the per-field rule table `validateInput`, which maps a field name and the current inputs to an
  error message, `''` meaning valid;
- the two regular expressions it tests, `/^\d{10}$/` and the unanchored `/\S+@\S+\.\S+/`;
- `compareObjects`, which decides whether the computed error record equals the empty one;
- the component's state `(inputs, errors, open)` and its four event handlers: change, submit,
  reset and snackbar close.

Files:

- `fields.dfy` (module `Fields`): the `Field` enumeration, the property name of each field, how a name is
  classified back into a field, and the default `initialInput` and `initialError` records.
- `patterns.dfy` (module `Patterns`): JavaScript's `\s` and `\d` classes and the phone and email patterns.
  The email pattern is given twice. `EmailRegexMatches` is its literal meaning: some span matches a
  run of non-whitespace, `@`, a run, `.`, and a run. `EmailTest` is a decision procedure used by the rule
  table, and `EmailTestIsRegex` proves the two agree.
- `validation.dfy` (module `Validation`): the rule table, `validateInput`, the error record a submit
  computes (`ValidateAll`), the submit loop (`ComputeErrors`), `compareObjects`, and the properties of
  each rule.
- `form.dfy` (module `Form`): class `UserForm`, which has the component's three state variables as
  fields and one method per handler, plus the snackbar's `onClose(event, reason)` call and two wirings
  of the close handler: as written (see "## Findings") and as intended (`SnackbarClose`).

Modelling decisions:

- Field names are the `Field` datatype. The inputs record stays keyed by property name
  (`map<string, string>`) because a change event stores its value under whatever name it carries. The
  error record is keyed by `Field`, because only the nine error fields are ever written to it.
- A property missing from the inputs reads as `undefined` in the source. Every rule treats that exactly like
  `''`: it is falsy, and it is not equal to `'NA'`. So `ValueOf` reads a missing key as `""`.
- The date-of-birth comparison `new Date(value) > new Date()` is the parameter `isFuture`. The parameter
  covers date parsing and the clock. For a string that does not parse, the source's comparison is false,
  so such a string passes; that case is part of what `isFuture` decides. The logic around the comparison is
  modelled exactly: emptiness is tested first, then the future check.
- `\S` is the complement of the full ECMAScript whitespace set (WhiteSpace and LineTerminator), not only
  ASCII whitespace. `\d` is `'0'..'9'`.
- The loops of `submitHandler` and `compareObjects` iterate over key sets in an arbitrary order (`:|`).
  Their contracts therefore hold for every key order, so the result does not depend on key order.
- A name outside the switch yields `''`; nothing fails fast.
- An all-blank form, the state `''` included, gets eight messages (`BlankInputsFail`): the state rule accepts
  `''`. The defaults, with the state on `'NA'`, get nine (`DefaultInputsFail`).

## Model

| member | source | states |
|---|---|---|
| Fields.FieldNamed | src/Components/UserForm.tsx:65-122 | a name classifies as a field exactly when it is that field's property name; any other name classifies as no field |
| Fields.DefaultsCoverRegistry | src/Components/UserForm.tsx:32-55 | the default inputs hold every field, all `''` except the state's `'NA'`; the default error record has exactly the nine error fields, all `''` |
| Validation.RequiredMessage | src/Components/UserForm.tsx:66-118 | every field but the middle name has a non-empty "required" message |
| Validation.ValidateInput | src/Components/UserForm.tsx:61-124 | reads the value under the name (`ValueOf`, line 62) and dispatches to the rule table `FieldError` (the switch, lines 65-122, with the phone test `PhoneMatches` of line 94); an unknown name yields `''`; a non-empty message belongs to an error field and is that field's required or format message |
| Validation.RequiredBeforeFormat | src/Components/UserForm.tsx:81-104 | for `dob`, `phno` and `email`, an empty value yields the required message and never the format message |
| Validation.RequiredRule | src/Components/UserForm.tsx:66-114 | for `fname`, `lname`, `gender`, `house` and `city`, the message is `''` iff the value is non-empty; otherwise it is the required message |
| Validation.DobRule | src/Components/UserForm.tsx:81-90 | a non-empty date of birth yields `''` iff it is not in the future; otherwise it yields the future-date message |
| Validation.PhoneRule | src/Components/UserForm.tsx:91-97 | a non-empty phone value yields `''` iff it is exactly ten decimal digits; otherwise it yields "Phone number must be 10 digits only." |
| Validation.EmailRule | src/Components/UserForm.tsx:98-104 | a non-empty email yields `''` iff some substring matches `\S+@\S+\.\S+`; otherwise it yields "Email address is invalid." |
| Validation.StatesRule | src/Components/UserForm.tsx:115-119 | the state is in error iff it equals `'NA'`, with the required message; `''` is accepted |
| Validation.UnvalidatedNames | src/Components/UserForm.tsx:120-121 | `mname` and every name not in the switch yield `''` |
| Validation.FieldErrorAccepts | src/Components/UserForm.tsx:61-124 | a rule yields `''` exactly when the reference predicate `Accepts`, written with the regexes' meaning, holds |
| Validation.CompareObjects | src/Components/UserForm.tsx:146-162 | returns true iff the two records have the same keys and the same value under each key, whatever the key order |
| Validation.EqualsInitialErrorIffAllEmpty | src/Components/UserForm.tsx:164-169 | a record with the nine error keys equals `initialError` iff every entry is `''` |
| Validation.ComputeErrors | src/Components/UserForm.tsx:140-144 | the loop, starting from a copy of `initialError`, ends with the record whose entry for each error field is `validateInput` of its name |
| Validation.RecordStep | src/Components/UserForm.tsx:141-144 | one loop iteration moves its key from pending to validated and keeps every other entry |
| Validation.PartialRecordComplete | src/Components/UserForm.tsx:141-144 | when no key is pending, the partial record is the complete one |
| Validation.ValidateAllAt | src/Components/UserForm.tsx:142-143 | the computed entry for a field is `validateInput` of that field's name |
| Validation.ValidateAllShape | src/Components/UserForm.tsx:140-144 | the computed record has exactly the nine error keys; it is all empty iff every field validates to `''` |
| Validation.AllValidIff | src/Components/UserForm.tsx:138-170 | a submit succeeds iff every error field's value is accepted by its rule |
| Validation.DefaultInputsFail | src/Components/UserForm.tsx:32-55 | the default inputs yield the required message on all nine error keys, the state included, so a submit of them fails |
| Validation.BlankInputsFail | src/Components/UserForm.tsx:66-119 | with all ten values `''`, eight entries carry their required message and the state's entry is `''` |
| Validation.PhoneExamples | src/Components/UserForm.tsx:91-97 | `"1234567890"` passes; `"12345"` and `"12345678901"` get the format message; `""` gets the required message |
| Validation.EmailExamples | src/Components/UserForm.tsx:98-104 | `"a@b.com"` and `"to: a@b.c !"` pass; `"abc"` gets the invalid-address message; `""` gets the required message |
| Patterns.EmailTestIsRegex | src/Components/UserForm.tsx:101 | the decision procedure accepts a string iff some span of it matches `\S+@\S+\.\S+` |
| Patterns.EmailUnanchored | src/Components/UserForm.tsx:101 | text before and after a matching string keeps it matching |
| Patterns.EmailNeedsAt | src/Components/UserForm.tsx:101 | a string without `@` never matches the email pattern |
| Form.UserForm.constructor | src/Components/UserForm.tsx:57-59 | the form mounts with `initialInput`, `initialError` and the notice closed |
| Form.UserForm.ChangeHandler | src/Components/UserForm.tsx:126-129 | sets `inputs[name] := value`; other inputs, `errors` and `open` are unchanged |
| Form.UserForm.HandleClose | src/Components/UserForm.tsx:131-136 | the function as written, on its parameter: the string `'clickaway'` changes nothing; any other value sets `open` to false; inputs and errors are unchanged (as wired, the parameter never holds that string: see Findings) |
| Form.OnCloseArguments | src/Components/UserForm.tsx:182 | the snackbar's `onClose` call passes the reason string second; its first argument, the event or `null`, is never that string |
| Form.AsWiredAlwaysCloses | src/Components/UserForm.tsx:182 | with `onClose={handleClose}` the guard sees the first argument and never fires, whatever the reason |
| Form.IntendedIgnoresOnlyClickaway | src/Components/UserForm.tsx:131-134 | a guard applied to the reason argument ignores exactly the click-away |
| Form.UserForm.SnackbarClose | src/Components/UserForm.tsx:131-136 | the intended wiring: a click-away leaves `open` as it was, a timeout or the escape key closes the notice; inputs and errors are unchanged |
| Form.UserForm.SubmitHandler | src/Components/UserForm.tsx:138-170 | inputs unchanged; on success `errors := initialError` and `open := true`; on failure `errors` becomes the computed record and `open` is kept |
| Form.UserForm.ResetHandler | src/Components/UserForm.tsx:172-176 | sets `inputs := initialInput` and `errors := initialError`, keeps `open`; the new state does not depend on the old inputs and errors, so a second reset changes nothing (idempotent) |

## Left out

- Rendering: the JSX, the MUI widgets and the inline styles (src/Components/UserForm.tsx:178-272). This is
  presentation over an external library.
- The snackbar's auto-hide after 700 ms. It is a timer effect of the UI library.
- JavaScript `Date` parsing and the clock read by `new Date()`. The `isFuture` parameter stands for them, so
  nothing is proved about which date strings are accepted.
- `event.preventDefault()`, reading `name` and `value` from `event.target`, and `console.log`. These are DOM
  plumbing and diagnostics. The handlers take the name, value and reason directly.
- The double wiring of submit through both the form's `onSubmit` and the button's `onClick`.
- React's `useState` batching and re-rendering. Each handler is one atomic, synchronous transition.

## Findings

| source | as written | input that shows it | evidently intended | confidence | as-written member | corrected member |
|---|---|---|---|---|---|---|
| src/Components/UserForm.tsx:182 | `onClose={handleClose}` binds `handleClose`'s only parameter to the first argument of the snackbar's `onClose(event, reason)`, the event or `null`, so `reason === 'clickaway'` (line 132) never holds and the guard at lines 132-134 is dead | a click away from the open notice: the first argument is the click event, and the notice closes | click-aways ignored, by testing the second argument, `(event, reason) => ...` | not executed; relies on the UI library's `onClose(event, reason)` signature | Form.AsWiredAlwaysCloses | Form.UserForm.SnackbarClose |
